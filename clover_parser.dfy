/**
 * The hierarchical tree builder for Clover reports (`coverage::CloverParser`)
 * and the per-file metrics aggregator (`compute_file_metrics`). The builder
 * maps the report 1:1 into project -> package -> file -> {class, line}
 * records, keeping every child in document order and filtering nothing.
 */
module CloverParser {
  import opened Wrappers
  import opened Xml
  import opened DataStructures

  /** Why a report is refused: it did not load, or it is not a Clover report. */
  datatype ParseError = InvalidXml | NotClover

  /** `parse_line_coverage`: the line number is always read; a conditional
      record carries only branch counts, any other only `count`. */
  function ParseLineCoverage(node: Node): (l: LineCoverage)
    ensures l.num == node.Uint("num")
    ensures l.kind == Cond ==> l.count == 0
    ensures l.kind != Cond ==> l.trueCount == 0 && l.falseCount == 0
  {
    var item := DefaultLineCoverage().(num := node.Uint("num"));
    var kind := node.Attr("type");
    if kind == "stmt" then item.(kind := Stmt, count := node.Uint("count"))
    else if kind == "method" then item.(kind := Method, count := node.Uint("count"))
    else if kind == "cond" then item.(kind := Cond, trueCount := node.Uint("truecount"), falseCount := node.Uint("falsecount"))
    else item
  }

  /** The line classification: a `stmt` or `method` line takes `count`, a
      `cond` line takes `truecount` and `falsecount`, and any other `type`
      falls through the (no-op) assertion and keeps the zeroed default of
      kind `Stmt`; the line number is always read. */
  lemma LineClassification(node: Node)
    ensures var l := ParseLineCoverage(node);
      && l.num == node.Uint("num")
      && (node.Attr("type") == "stmt" ==>
        l.kind == Stmt && l.count == node.Uint("count") && l.trueCount == 0 && l.falseCount == 0)
      && (node.Attr("type") == "method" ==>
        l.kind == Method && l.count == node.Uint("count") && l.trueCount == 0 && l.falseCount == 0)
      && (node.Attr("type") == "cond" ==>
        && l.kind == Cond && l.count == 0
        && l.trueCount == node.Uint("truecount") && l.falseCount == node.Uint("falsecount"))
      && (node.Attr("type") !in {"stmt", "method", "cond"} ==>
        l.kind == Stmt && l.count == 0 && l.trueCount == 0 && l.falseCount == 0)
  {
  }

  /** `parse_class_coverage`: only the name is read. */
  function ParseClassCoverage(node: Node): (c: ClassCoverage)
    ensures c.name == node.Attr("name")
  {
    ClassCoverage(node.Attr("name"))
  }

  /** The file record `parse_file_coverage` builds. */
  function FileOf(node: Node): FileCoverage {
    FileCoverage(node.Attr("path"), node.Attr("name"),
      MapSeq(ParseClassCoverage, node.ChildrenNamed("class")),
      MapSeq(ParseLineCoverage, node.ChildrenNamed("line")))
  }

  /** The package record `parse_package_coverage` builds. */
  function PackageOf(node: Node): PackageCoverage {
    PackageCoverage(node.Attr("name"), MapSeq(FileOf, node.ChildrenNamed("file")))
  }

  /** The project record `parse_project_coverage` fills in. */
  function ProjectOf(node: Node): ProjectCoverage {
    ProjectCoverage(node.Attr("timestamp"), node.Attr("name"), MapSeq(PackageOf, node.ChildrenNamed("package")))
  }

  /** The builder filters nothing at the file level: one class record per
      `<class>` child and one line record per `<line>` child, in document
      order, whatever their counts. */
  lemma FileKeepsEveryChild(node: Node)
    ensures var f := FileOf(node);
      && f.path == node.Attr("path") && f.name == node.Attr("name")
      && |f.classes| == |node.ChildrenNamed("class")|
      && (forall i :: 0 <= i < |f.classes| ==> f.classes[i] == ParseClassCoverage(node.ChildrenNamed("class")[i]))
      && |f.lines| == |node.ChildrenNamed("line")|
      && (forall i :: 0 <= i < |f.lines| ==> f.lines[i] == ParseLineCoverage(node.ChildrenNamed("line")[i]))
  {
    MapSeqIndex(ParseLineCoverage, node.ChildrenNamed("line"));
    MapSeqIndex(ParseClassCoverage, node.ChildrenNamed("class"));
  }

  /** One file record per `<file>` child of a package, in order. */
  lemma PackageKeepsEveryFile(node: Node)
    ensures var p := PackageOf(node);
      && p.name == node.Attr("name")
      && |p.files| == |node.ChildrenNamed("file")|
      && forall i :: 0 <= i < |p.files| ==> p.files[i] == FileOf(node.ChildrenNamed("file")[i])
  {
    MapSeqIndex(FileOf, node.ChildrenNamed("file"));
  }

  /** One package record per `<package>` child of a project, in order. */
  lemma ProjectKeepsEveryPackage(node: Node)
    ensures var p := ProjectOf(node);
      && p.timestamp == node.Attr("timestamp") && p.name == node.Attr("name")
      && |p.packages| == |node.ChildrenNamed("package")|
      && forall i :: 0 <= i < |p.packages| ==> p.packages[i] == PackageOf(node.ChildrenNamed("package")[i])
  {
    MapSeqIndex(PackageOf, node.ChildrenNamed("package"));
  }

  /** `CloverParser::operator()`: the errors it throws, else the tree built
      from the first `<project>` child of the `<coverage>` root. */
  function ReportOf(input: LoadResult): Result<ProjectCoverage, ParseError> {
    if input.LoadFailed? then Err(InvalidXml)
    else
      var root := input.document.Child("coverage");
      if !root.Has("clover") then Err(NotClover)
      else Ok(ProjectOf(root.Child("project")))
  }

  /** A report is refused exactly when it failed to load or its root lacks
      the `clover` attribute; otherwise the tree comes from the first
      `<project>` only (later ones are ignored), and a report with no
      project gives an empty tree. */
  lemma ReportOfSpec(input: LoadResult)
    ensures ReportOf(input) == Err(InvalidXml) <==> input.LoadFailed?
    ensures ReportOf(input) == Err(NotClover) <==>
      input.Loaded? && !input.document.Child("coverage").Has("clover")
    ensures ReportOf(input).Ok? ==>
      var root := input.document.Child("coverage");
      && (root.HasChild("project") ==> ReportOf(input).value == ProjectOf(root.ChildrenNamed("project")[0]))
      && (!root.HasChild("project") ==> ReportOf(input).value == ProjectCoverage("", "", []))
  {
    if input.Loaded? {
      var root := input.document.Child("coverage");
      if root.Has("clover") && !root.HasChild("project") {
        assert Null.ChildrenNamed("package") == [];
      }
    }
  }

  /** `parse_file_coverage`: two sibling loops appending to the record. */
  method ParseFileCoverage(root: Node) returns (item: FileCoverage)
    ensures item == FileOf(root)
  {
    var kids := root.Kids();
    var classes := CollectNamed(kids, "class", ParseClassCoverage);
    var lines := CollectNamed(kids, "line", ParseLineCoverage);
    item := FileCoverage(root.Attr("path"), root.Attr("name"), classes, lines);
  }

  /** One sibling loop of `parse_file_coverage`: walk the chain of children
      named `tag` and push `f` of each, in document order. */
  method CollectNamed<B>(kids: seq<Node>, tag: string, f: Node -> B) returns (r: seq<B>)
    ensures r == MapSeq(f, Named(kids, tag))
  {
    r := [];
    var j := 0;
    while j < |kids|
      invariant j <= |kids|
      invariant r == MapSeq(f, Named(kids[..j], tag))
    {
      NamedStep(kids, j, tag);
      if kids[j].IsNamed(tag) {
        MapSeqSnoc(f, Named(kids[..j], tag), kids[j]);
        r := r + [f(kids[j])];
      }
      j := j + 1;
    }
    assert kids[..|kids|] == kids;
  }

  /** `parse_package_coverage`. */
  method ParsePackageCoverage(root: Node) returns (item: PackageCoverage)
    ensures item == PackageOf(root)
  {
    item := PackageCoverage(root.Attr("name"), []);
    var kids := root.Kids();
    var j := 0;
    while j < |kids|
      invariant j <= |kids|
      invariant item == PackageCoverage(root.Attr("name"), MapSeq(FileOf, Named(kids[..j], "file")))
    {
      NamedStep(kids, j, "file");
      if kids[j].IsNamed("file") {
        MapSeqSnoc(FileOf, Named(kids[..j], "file"), kids[j]);
        var file := ParseFileCoverage(kids[j]);
        item := item.(files := item.files + [file]);
      }
      j := j + 1;
    }
    assert kids[..|kids|] == kids;
  }

  /** `parse_project_coverage`, returning the record it fills in. */
  method ParseProjectCoverage(root: Node) returns (results: ProjectCoverage)
    ensures results == ProjectOf(root)
  {
    results := ProjectCoverage(root.Attr("timestamp"), root.Attr("name"), []);
    var kids := root.Kids();
    var j := 0;
    while j < |kids|
      invariant j <= |kids|
      invariant results == ProjectCoverage(root.Attr("timestamp"), root.Attr("name"),
        MapSeq(PackageOf, Named(kids[..j], "package")))
    {
      NamedStep(kids, j, "package");
      if kids[j].IsNamed("package") {
        MapSeqSnoc(PackageOf, Named(kids[..j], "package"), kids[j]);
        var package := ParsePackageCoverage(kids[j]);
        results := results.(packages := results.packages + [package]);
      }
      j := j + 1;
    }
    assert kids[..|kids|] == kids;
  }

  /** `CloverParser::operator()`: a thrown error becomes `Err`. */
  method Parse(input: LoadResult) returns (r: Result<ProjectCoverage, ParseError>)
    ensures r == ReportOf(input)
  {
    if input.LoadFailed? {
      return Err(InvalidXml);
    }
    var root := input.document.Child("coverage");
    if !root.Has("clover") {
      return Err(NotClover);
    }
    var project := ParseProjectCoverage(root.Child("project"));
    return Ok(project);
  }

  /** `parse_class_metrics`: every counter copied from the attribute of the
      same name (`coveredelements`, `ncloc`, ...), 0 when it is missing. */
  function ParseClassMetrics(node: Node): (m: ClassMetrics)
    ensures m.elements == node.Uint("elements") && m.coveredElements == node.Uint("coveredelements")
    ensures m.statements == node.Uint("statements") && m.coveredStatements == node.Uint("coveredstatements")
    ensures m.conditionals == node.Uint("conditionals") && m.coveredConditionals == node.Uint("coveredconditionals")
    ensures m.methods == node.Uint("methods") && m.coveredMethods == node.Uint("coveredmethods")
    ensures m.complexity == node.Uint("complexity") && m.loc == node.Uint("loc") && m.ncloc == node.Uint("ncloc")
  {
    ClassMetrics(
      node.Uint("elements"), node.Uint("coveredelements"),
      node.Uint("statements"), node.Uint("coveredstatements"),
      node.Uint("conditionals"), node.Uint("coveredconditionals"),
      node.Uint("methods"), node.Uint("coveredmethods"),
      node.Uint("complexity"), node.Uint("loc"), node.Uint("ncloc"))
  }

  /** `parse_file_metrics`: `classes`, plus the class counters of the same node. */
  function ParseFileMetrics(node: Node): (m: FileMetrics)
    ensures m.classes == node.Uint("classes") && m.metrics == ParseClassMetrics(node)
  {
    FileMetrics(node.Uint("classes"), ParseClassMetrics(node))
  }

  /** `parse_package_metrics`: `files`, plus the file counters of the same node. */
  function ParsePackageMetrics(node: Node): (m: PackageMetrics)
    ensures m.files == node.Uint("files") && m.metrics == ParseFileMetrics(node)
  {
    PackageMetrics(node.Uint("files"), ParseFileMetrics(node))
  }

  /** `parse_project_metrics`: `packages`, plus the package counters of the same node. */
  function ParseProjectMetrics(node: Node): (m: ProjectMetrics)
    ensures m.packages == node.Uint("packages") && m.metrics == ParsePackageMetrics(node)
  {
    ProjectMetrics(node.Uint("packages"), ParsePackageMetrics(node))
  }

  /** A metrics node without attributes (or the null node) reads as the
      zeroed default at every level. */
  lemma MissingMetricsReadZero(node: Node)
    requires forall key :: !node.Has(key)
    ensures ProjectZero(ParseProjectMetrics(node))
    ensures ParseProjectMetrics(node) == DefaultProjectMetrics()
  {
  }

  /** The number of lines of kind `k`. */
  function CountKind(lines: seq<LineCoverage>, k: CoverageType): (n: nat)
    ensures n <= |lines|
  {
    if lines == [] then 0
    else CountKind(lines[..|lines| - 1], k) + (if lines[|lines| - 1].kind == k then 1 else 0)
  }

  /** The coverage test of `compute_file_metrics`: `count > 0`, except that a
      conditional is covered when `truecount > 0`, whatever `falsecount` is. */
  predicate IsCovered(l: LineCoverage) {
    if l.kind == Cond then l.trueCount > 0 else l.count > 0
  }

  /** The number of covered lines of kind `k`; never more than all of them. */
  function CountCovered(lines: seq<LineCoverage>, k: CoverageType): (n: nat)
    ensures n <= CountKind(lines, k)
  {
    if lines == [] then 0
    else
      var l := lines[|lines| - 1];
      CountCovered(lines[..|lines| - 1], k) + (if l.kind == k && IsCovered(l) then 1 else 0)
  }

  /** One more line visited by the counting pass. */
  lemma CountStep(lines: seq<LineCoverage>, i: nat, k: CoverageType)
    requires i < |lines|
    ensures CountKind(lines[..i + 1], k) == CountKind(lines[..i], k) + (if lines[i].kind == k then 1 else 0)
    ensures CountCovered(lines[..i + 1], k)
      == CountCovered(lines[..i], k) + (if lines[i].kind == k && IsCovered(lines[i]) then 1 else 0)
  {
    assert lines[..i + 1][..i] == lines[..i];
  }

  /** `compute_file_metrics`: one pass over the lines. A statement or method
      line is one slot, a conditional line two slots of which at most one is
      counted covered; `elements` and `coveredelements` are the sums; the
      class count and the size counters stay 0. */
  method ComputeFileMetrics(data: FileCoverage) returns (results: FileMetrics)
    ensures results.classes == 0
    ensures results.metrics.statements == CountKind(data.lines, Stmt)
    ensures results.metrics.coveredStatements == CountCovered(data.lines, Stmt)
    ensures results.metrics.methods == CountKind(data.lines, Method)
    ensures results.metrics.coveredMethods == CountCovered(data.lines, Method)
    ensures results.metrics.conditionals == 2 * CountKind(data.lines, Cond)
    ensures results.metrics.coveredConditionals == CountCovered(data.lines, Cond)
    ensures results.metrics.elements
      == results.metrics.statements + results.metrics.methods + results.metrics.conditionals
    ensures results.metrics.coveredElements
      == results.metrics.coveredStatements + results.metrics.coveredMethods + results.metrics.coveredConditionals
    ensures results.metrics.coveredElements <= results.metrics.elements
    ensures results.metrics.conditionals % 2 == 0
    ensures results.metrics.complexity == 0 && results.metrics.loc == 0 && results.metrics.ncloc == 0
  {
    results := DefaultFileMetrics();
    var lines := data.lines;
    var i := 0;
    while i < |lines|
      invariant i <= |lines|
      invariant results.classes == 0
      invariant results.metrics.elements == 0 && results.metrics.coveredElements == 0
      invariant results.metrics.complexity == 0 && results.metrics.loc == 0 && results.metrics.ncloc == 0
      invariant results.metrics.statements == CountKind(lines[..i], Stmt)
      invariant results.metrics.coveredStatements == CountCovered(lines[..i], Stmt)
      invariant results.metrics.methods == CountKind(lines[..i], Method)
      invariant results.metrics.coveredMethods == CountCovered(lines[..i], Method)
      invariant results.metrics.conditionals == 2 * CountKind(lines[..i], Cond)
      invariant results.metrics.coveredConditionals == CountCovered(lines[..i], Cond)
    {
      var line := lines[i];
      CountStep(lines, i, Stmt);
      CountStep(lines, i, Method);
      CountStep(lines, i, Cond);
      var m := results.metrics;
      if line.kind == Stmt {
        m := m.(statements := m.statements + 1,
                coveredStatements := m.coveredStatements + (if line.count > 0 then 1 else 0));
      } else if line.kind == Method {
        m := m.(methods := m.methods + 1,
                coveredMethods := m.coveredMethods + (if line.count > 0 then 1 else 0));
      } else {
        m := m.(conditionals := m.conditionals + 2,
                coveredConditionals := m.coveredConditionals + (if line.trueCount > 0 then 1 else 0));
      }
      results := results.(metrics := m);
      i := i + 1;
    }
    assert lines[..|lines|] == lines;
    var m := results.metrics;
    results := results.(metrics := m.(
      elements := m.statements + m.methods + m.conditionals,
      coveredElements := m.coveredStatements + m.coveredMethods + m.coveredConditionals));
  }

  /** Every line has exactly one of the three kinds, so the slots add up to
      the number of lines plus one extra slot per conditional line. */
  lemma {:induction false} KindsPartitionLines(lines: seq<LineCoverage>)
    ensures CountKind(lines, Stmt) + CountKind(lines, Method) + CountKind(lines, Cond) == |lines|
    decreases |lines|
  {
    if lines != [] {
      KindsPartitionLines(lines[..|lines| - 1]);
    }
  }

  /** `falsecount` never influences the metrics: two line lists that differ
      only in their false counts give the same counts. */
  lemma {:induction false} MetricsIgnoreFalseCount(lines: seq<LineCoverage>, lines': seq<LineCoverage>, k: CoverageType)
    requires |lines| == |lines'|
    requires forall i :: 0 <= i < |lines| ==> lines'[i] == lines[i].(falseCount := lines'[i].falseCount)
    ensures CountKind(lines, k) == CountKind(lines', k)
    ensures CountCovered(lines, k) == CountCovered(lines', k)
    decreases |lines|
  {
    if lines != [] {
      var n := |lines| - 1;
      MetricsIgnoreFalseCount(lines[..n], lines'[..n], k);
    }
  }

  /** The worked example: statement lines with counts 0, 1 and 2 and one
      conditional with truecount 1 and falsecount 0 give statements 3/2,
      conditionals 2/1 and elements 5/3. */
  lemma WorkedExample()
    ensures var lines := [
        LineCoverage(1, 0, Stmt, 0, 0), LineCoverage(2, 1, Stmt, 0, 0),
        LineCoverage(3, 2, Stmt, 0, 0), LineCoverage(4, 0, Cond, 1, 0)];
      && CountKind(lines, Stmt) == 3 && CountCovered(lines, Stmt) == 2
      && CountKind(lines, Method) == 0 && CountCovered(lines, Method) == 0
      && 2 * CountKind(lines, Cond) == 2 && CountCovered(lines, Cond) == 1
      && CountKind(lines, Stmt) + CountKind(lines, Method) + 2 * CountKind(lines, Cond) == 5
      && CountCovered(lines, Stmt) + CountCovered(lines, Method) + CountCovered(lines, Cond) == 3
  {
    var lines := [
        LineCoverage(1, 0, Stmt, 0, 0), LineCoverage(2, 1, Stmt, 0, 0),
        LineCoverage(3, 2, Stmt, 0, 0), LineCoverage(4, 0, Cond, 1, 0)];
    assert lines[..3] == lines[..2] + [lines[2]] && lines[..2][..1] == lines[..1];
    assert lines[..3][..2] == lines[..2] && lines[..1][..0] == [];
    assert CountKind(lines[..1], Stmt) == 1 && CountCovered(lines[..1], Stmt) == 0;
    assert CountKind(lines[..2], Stmt) == 2 && CountCovered(lines[..2], Stmt) == 1;
    assert CountKind(lines[..3], Stmt) == 3 && CountCovered(lines[..3], Stmt) == 2;
    forall k | k != Stmt
      ensures CountKind(lines[..3], k) == 0 && CountCovered(lines[..3], k) == 0
    {
      assert CountKind(lines[..1], k) == 0 && CountKind(lines[..2], k) == 0;
    }
  }
}
