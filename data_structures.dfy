/**
 * The record types of the coverage model: line keys with their ordering,
 * line records, the metric records with their zeroing defaults, and the
 * project -> package -> file -> {class, line} tree. Counters that the
 * source keeps as `unsigned int` or `int` are `nat` here.
 */
module DataStructures {

  /** `STMT` is the first enumerator, so a value-initialised kind is `Stmt`. */
  datatype CoverageType = Stmt | Method | Cond

  /** A source line: the index of its file and its line number. */
  datatype Line = Line(sourceId: nat, num: nat)

  /** `operator==`: both fields equal, which is identity of the key. */
  predicate LineEq(a: Line, b: Line)
    ensures LineEq(a, b) <==> a == b
  {
    a.sourceId == b.sourceId && a.num == b.num
  }

  /** `operator<`: lexicographic on (source id, line number). A smaller
      line is a different line, of the same or an earlier file. */
  predicate LineLess(a: Line, b: Line)
    ensures LineLess(a, b) ==> a != b && a.sourceId <= b.sourceId
  {
    a.sourceId < b.sourceId || (a.sourceId == b.sourceId && a.num < b.num)
  }

  /** `operator>`: lexicographic "greater" on (source id, line number),
      which is `<` with the operands swapped. */
  predicate LineGreater(a: Line, b: Line)
    ensures LineGreater(a, b) <==> LineLess(b, a)
  {
    a.sourceId > b.sourceId || (a.sourceId == b.sourceId && a.num > b.num)
  }

  /** `<` on lines is a strict total order. */
  lemma LineLessIsStrictTotalOrder(a: Line, b: Line, c: Line)
    ensures !LineLess(a, a)
    ensures LineLess(a, b) ==> !LineLess(b, a)
    ensures LineLess(a, b) && LineLess(b, c) ==> LineLess(a, c)
    ensures a != b ==> LineLess(a, b) || LineLess(b, a)
  {
  }

  /** `a > b` holds exactly when `b < a`, and `==` is what is left over. */
  lemma LineGreaterIsConverse(a: Line, b: Line)
    ensures LineGreater(a, b) <==> LineLess(b, a)
    ensures LineEq(a, b) <==> !LineLess(a, b) && !LineGreater(a, b)
  {
  }

  /** The counters of one class (and, nested, of a file, package or project). */
  datatype ClassMetrics = ClassMetrics(
    elements: nat, coveredElements: nat,
    statements: nat, coveredStatements: nat,
    conditionals: nat, coveredConditionals: nat,
    methods: nat, coveredMethods: nat,
    complexity: nat, loc: nat, ncloc: nat)

  datatype FileMetrics = FileMetrics(classes: nat, metrics: ClassMetrics)

  datatype PackageMetrics = PackageMetrics(files: nat, metrics: FileMetrics)

  datatype ProjectMetrics = ProjectMetrics(packages: nat, metrics: PackageMetrics)

  /** Every counter of a class record is 0. */
  predicate ClassZero(m: ClassMetrics) {
    && m.elements == 0 && m.coveredElements == 0
    && m.statements == 0 && m.coveredStatements == 0
    && m.conditionals == 0 && m.coveredConditionals == 0
    && m.methods == 0 && m.coveredMethods == 0
    && m.complexity == 0 && m.loc == 0 && m.ncloc == 0
  }

  predicate FileZero(m: FileMetrics) {
    m.classes == 0 && ClassZero(m.metrics)
  }

  predicate PackageZero(m: PackageMetrics) {
    m.files == 0 && FileZero(m.metrics)
  }

  predicate ProjectZero(m: ProjectMetrics) {
    m.packages == 0 && PackageZero(m.metrics)
  }

  /** `FileMetrics()`: `classes` and the nested class counters value-initialised. */
  function DefaultFileMetrics(): (m: FileMetrics)
    ensures FileZero(m)
  {
    FileMetrics(0, ClassMetrics(0, 0, 0, 0, 0, 0, 0, 0, 0, 0, 0))
  }

  /** `PackageMetrics()`: every counter down to the class level is 0. */
  function DefaultPackageMetrics(): (m: PackageMetrics)
    ensures PackageZero(m)
  {
    PackageMetrics(0, DefaultFileMetrics())
  }

  /** `ProjectMetrics()`: every counter down to the class level is 0. */
  function DefaultProjectMetrics(): (m: ProjectMetrics)
    ensures ProjectZero(m)
  {
    ProjectMetrics(0, DefaultPackageMetrics())
  }

  /** One `<line>` record of the tree. */
  datatype LineCoverage = LineCoverage(
    num: nat, count: nat, kind: CoverageType, trueCount: nat, falseCount: nat)

  /** A line record with no counts at all. */
  predicate LineZero(l: LineCoverage) {
    l.num == 0 && l.count == 0 && l.trueCount == 0 && l.falseCount == 0
  }

  /** `LineCoverage()`: all numbers zero and the kind the first enumerator. */
  function DefaultLineCoverage(): (l: LineCoverage)
    ensures LineZero(l) && l.kind == Stmt
  {
    LineCoverage(0, 0, Stmt, 0, 0)
  }

  datatype ClassCoverage = ClassCoverage(name: string)

  datatype FileCoverage = FileCoverage(
    path: string, name: string, classes: seq<ClassCoverage>, lines: seq<LineCoverage>)

  datatype PackageCoverage = PackageCoverage(name: string, files: seq<FileCoverage>)

  datatype ProjectCoverage = ProjectCoverage(
    timestamp: string, name: string, packages: seq<PackageCoverage>)
}
