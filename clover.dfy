/**
 * The deduplicating index store for Clover coverage reports
 * (`clover::Database`). It interns source file paths, tests and
 * (file, line) keys into dense 0-based indices in first-seen order, and
 * keeps an append-only list of coverage facts against those indices.
 *
 * The store's state is given twice: as the pure value `Store` with the
 * functions that specify each operation (`Intern*`, `IngestLine`,
 * `IngestLines`, ...), and as the class `Database` whose methods update its
 * fields in place and are proved to agree with those functions.
 */
module Clover {
  import opened Wrappers
  import opened Xml
  import D = DataStructures

  /** A test: the file it lives in and its name; equality is structural. */
  datatype Test = Test(file: string, name: string)

  /** `std::string`'s `<`: lexicographic on characters, a proper prefix
      first; nothing is below the empty string. */
  predicate StrLess(a: string, b: string)
    ensures a < b ==> StrLess(a, b)
    ensures StrLess(a, b) ==> b != []
    decreases |a|
  {
    if a == [] then b != []
    else if b == [] then false
    else a[0] < b[0] || (a[0] == b[0] && StrLess(a[1..], b[1..]))
  }

  lemma {:induction false} StrLessIrreflexive(a: string)
    ensures !StrLess(a, a)
    decreases |a|
  {
    if a != [] {
      StrLessIrreflexive(a[1..]);
    }
  }

  lemma {:induction false} StrLessTransitive(a: string, b: string, c: string)
    requires StrLess(a, b) && StrLess(b, c)
    ensures StrLess(a, c)
    decreases |a|
  {
    if a != [] && a[0] == b[0] && b[0] == c[0] {
      StrLessTransitive(a[1..], b[1..], c[1..]);
    }
  }

  lemma {:induction false} StrLessTotal(a: string, b: string)
    requires a != b
    ensures StrLess(a, b) || StrLess(b, a)
    decreases |a|
  {
    if a != [] && b != [] && a[0] == b[0] {
      assert a == [a[0]] + a[1..] && b == [b[0]] + b[1..];
      StrLessTotal(a[1..], b[1..]);
    }
  }

  /** `Test`'s `<`: lexicographic on (file, name); a test is never below itself. */
  predicate TestLess(a: Test, b: Test)
    ensures TestLess(a, b) ==> a != b
  {
    StrLessIrreflexive(a.file);
    StrLessIrreflexive(a.name);
    StrLess(a.file, b.file) || (a.file == b.file && StrLess(a.name, b.name))
  }

  /** `Test`'s `>`: the tuple comparison on (file, name), which is `<` with
      the operands swapped. */
  predicate TestGreater(a: Test, b: Test)
    ensures TestGreater(a, b) <==> TestLess(b, a)
  {
    StrLess(b.file, a.file) || (a.file == b.file && StrLess(b.name, a.name))
  }

  /** `<` on tests is a strict total order, so `>` is its converse order. */
  lemma TestLessIsStrictTotalOrder(a: Test, b: Test, c: Test)
    ensures !TestLess(a, a)
    ensures TestLess(a, b) ==> !TestLess(b, a)
    ensures TestLess(a, b) && TestLess(b, c) ==> TestLess(a, c)
    ensures a != b ==> TestLess(a, b) || TestLess(b, a)
    ensures TestGreater(a, b) <==> TestLess(b, a)
  {
    StrLessIrreflexive(a.file);
    StrLessIrreflexive(a.name);
    if TestLess(a, b) && TestLess(b, a) {
      if StrLess(a.file, b.file) && StrLess(b.file, a.file) {
        StrLessTransitive(a.file, b.file, a.file);
      } else if StrLess(a.name, b.name) && StrLess(b.name, a.name) {
        StrLessTransitive(a.name, b.name, a.name);
      }
    }
    if TestLess(a, b) && TestLess(b, c) {
      if StrLess(a.file, b.file) && StrLess(b.file, c.file) {
        StrLessTransitive(a.file, b.file, c.file);
      } else if a.file == b.file && b.file == c.file {
        StrLessTransitive(a.name, b.name, c.name);
      }
    }
    if a != b {
      if a.file != b.file {
        StrLessTotal(a.file, b.file);
      } else {
        StrLessTotal(a.name, b.name);
      }
    }
  }

  /** What one line contributes: its kind and its counts. */
  datatype CoverageInfo = CoverageInfo(kind: D.CoverageType, count: nat, trueCount: nat, falseCount: nat)

  /** `CoverageInfo()`: kind `Stmt` and every count 0. */
  function DefaultInfo(): (c: CoverageInfo)
    ensures c.kind == D.Stmt && c.count == 0 && c.trueCount == 0 && c.falseCount == 0
  {
    CoverageInfo(D.Stmt, 0, 0, 0)
  }

  /** A coverage fact: a test index, a line index and what was observed. */
  datatype LineCoverage = LineCoverage(testId: nat, lineId: nat, info: CoverageInfo)

  /** `LineCoverage`'s `==`: compares the two indices only, so two facts are
      equal exactly when they differ at most in their coverage info. */
  predicate FactEq(a: LineCoverage, b: LineCoverage)
    ensures FactEq(a, b) <==> a.(info := b.info) == b
  {
    a.testId == b.testId && a.lineId == b.lineId
  }

  /** `LineCoverage`'s `<`: lexicographic on (test index, line index); a
      smaller fact is never `==`. */
  predicate FactLess(a: LineCoverage, b: LineCoverage)
    ensures FactLess(a, b) ==> !FactEq(a, b)
  {
    a.testId < b.testId || (a.testId == b.testId && a.lineId < b.lineId)
  }

  /** `LineCoverage`'s `>`: lexicographic "greater" on (test index, line
      index), which is `<` with the operands swapped. */
  predicate FactGreater(a: LineCoverage, b: LineCoverage)
    ensures FactGreater(a, b) <==> FactLess(b, a)
  {
    a.testId > b.testId || (a.testId == b.testId && a.lineId > b.lineId)
  }

  /** `==` on facts is exactly "neither `<` nor `>`", and it ignores the counts. */
  lemma FactEqIsIncomparability(a: LineCoverage, b: LineCoverage)
    ensures FactEq(a, b) <==> !FactLess(a, b) && !FactLess(b, a)
    ensures FactEq(a, b) <==> !FactLess(a, b) && !FactGreater(a, b)
    ensures FactEq(a, b) ==> FactEq(a, b.(info := a.info)) && a == b.(info := a.info)
  {
  }

  /** A list and a map that index each other: `list[index[k]] == k` for every
      key, and every position of the list has exactly its one key. */
  ghost predicate Interned<K>(list: seq<K>, index: map<K, nat>) {
    && (forall k :: k in index ==> index[k] < |list| && list[index[k]] == k)
    && (forall i :: 0 <= i < |list| ==> list[i] in index && index[list[i]] == i)
  }

  /** The lookup-or-append step shared by the three tables. */
  function Intern<K>(list: seq<K>, index: map<K, nat>, k: K): (r: (seq<K>, map<K, nat>, nat))
    ensures k in r.1 && r.1[k] == r.2
    ensures list <= r.0 && |r.0| <= |list| + 1
    ensures forall x :: x in index ==> x in r.1 && r.1[x] == index[x]
  {
    if k in index then (list, index, index[k]) else (list + [k], index[k := |list|], |list|)
  }

  /** A key already present gets its stored index and nothing changes; a new
      key gets the old length of the list, is appended and recorded; either
      way the list and the map keep indexing each other. */
  lemma InternSpec<K>(list: seq<K>, index: map<K, nat>, k: K)
    requires Interned(list, index)
    ensures var r := Intern(list, index, k);
      && Interned(r.0, r.1)
      && r.2 < |r.0| && r.0[r.2] == k
      && (k in index ==> r == (list, index, index[k]))
      && (k !in index ==> r.2 == |list| && r.0 == list + [k])
  {
    var r := Intern(list, index, k);
    if k !in index {
      forall x | x in r.1
        ensures r.1[x] < |r.0| && r.0[r.1[x]] == x
      {
        if x != k {
          assert x in index;
        }
      }
    }
  }

  /** Interning the same key twice: same index, and the second call changes nothing. */
  lemma InternIdempotent<K>(list: seq<K>, index: map<K, nat>, k: K)
    ensures var r := Intern(list, index, k);
      Intern(r.0, r.1, k) == r
  {
  }

  /** The store's state: the three tables and the fact list. */
  datatype Store = Store(
    sourceFiles: seq<string>, tests: seq<Test>, lines: seq<D.Line>, data: seq<LineCoverage>,
    file2idx: map<string, nat>, line2idx: map<D.Line, nat>, test2idx: map<Test, nat>)

  const EmptyStore: Store := Store([], [], [], [], map[], map[], map[])

  /** The store invariant: each table is consistent, each line refers to a
      known file and each fact to a known line. */
  ghost predicate WellFormed(s: Store) {
    && Interned(s.sourceFiles, s.file2idx)
    && Interned(s.tests, s.test2idx)
    && Interned(s.lines, s.line2idx)
    && (forall i :: 0 <= i < |s.lines| ==> s.lines[i].sourceId < |s.sourceFiles|)
    && (forall i :: 0 <= i < |s.data| ==> s.data[i].lineId < |s.lines|)
  }

  ghost predicate MapExtends<K>(m: map<K, nat>, m': map<K, nat>) {
    forall k :: k in m ==> k in m' && m'[k] == m[k]
  }

  /** `t` is `s` grown: every list extends its old value and no index changes. */
  ghost predicate Extends(s: Store, t: Store) {
    && s.sourceFiles <= t.sourceFiles && s.tests <= t.tests
    && s.lines <= t.lines && s.data <= t.data
    && MapExtends(s.file2idx, t.file2idx)
    && MapExtends(s.line2idx, t.line2idx)
    && MapExtends(s.test2idx, t.test2idx)
  }

  lemma ExtendsTransitive(s: Store, t: Store, u: Store)
    requires Extends(s, t) && Extends(t, u)
    ensures Extends(s, u)
  {
  }

  /** `get_file_index`. */
  function InternFile(s: Store, path: string): (Store, nat) {
    var r := Intern(s.sourceFiles, s.file2idx, path);
    (s.(sourceFiles := r.0, file2idx := r.1), r.2)
  }

  /** `get_test_index`. */
  function InternTest(s: Store, t: Test): (Store, nat) {
    var r := Intern(s.tests, s.test2idx, t);
    (s.(tests := r.0, test2idx := r.1), r.2)
  }

  /** `get_line_idx`. */
  function InternLine(s: Store, line: D.Line): (Store, nat) {
    var r := Intern(s.lines, s.line2idx, line);
    (s.(lines := r.0, line2idx := r.1), r.2)
  }

  /** What `parse_line_node` reads off one `<line>` element: its `num` and
      its classified, filtered fact. Reading has no effect, so the store
      functions below take this record instead of the element. */
  datatype LineRead = LineRead(num: nat, fact: Option<CoverageInfo>)

  /** The classification of a `<line>` element with the zero-signal filter
      applied: `None` when no fact is recorded. A `type` other than `stmt`,
      `method` or `cond` falls through the (no-op) assertion and records the
      default info. */
  function LineFact(node: Node): (r: Option<CoverageInfo>)
    ensures r.Some? && r.value.kind == D.Cond ==>
      r.value.count == 0 && r.value.trueCount > 0 && r.value.falseCount > 0
    ensures r.Some? && r.value.kind == D.Method ==>
      r.value.count > 0 && r.value.trueCount == 0 && r.value.falseCount == 0
    ensures r.Some? && r.value.kind == D.Stmt ==>
      r.value.trueCount == 0 && r.value.falseCount == 0 && (r.value.count == 0 ==> r.value == DefaultInfo())
  {
    var kind := node.Attr("type");
    if kind == "stmt" then
      if node.Uint("count") == 0 then None else Some(CoverageInfo(D.Stmt, node.Uint("count"), 0, 0))
    else if kind == "method" then
      if node.Uint("count") == 0 then None else Some(CoverageInfo(D.Method, node.Uint("count"), 0, 0))
    else if kind == "cond" then
      if node.Uint("truecount") == 0 || node.Uint("falsecount") == 0 then None
      else Some(CoverageInfo(D.Cond, 0, node.Uint("truecount"), node.Uint("falsecount")))
    else
      Some(DefaultInfo())
  }

  /** The zero-signal filter: exactly these lines are dropped. */
  lemma ZeroSignalFilter(node: Node)
    ensures LineFact(node).None? <==>
      || ((node.Attr("type") == "stmt" || node.Attr("type") == "method") && node.Uint("count") == 0)
      || (node.Attr("type") == "cond" && (node.Uint("truecount") == 0 || node.Uint("falsecount") == 0))
    ensures node.Attr("type") !in {"stmt", "method", "cond"} ==> LineFact(node) == Some(DefaultInfo())
  {
  }

  /** The attributes `parse_line_node` reads from a `<line>` element. */
  function ReadLine(node: Node): LineRead {
    LineRead(node.Uint("num"), LineFact(node))
  }

  /** The line key of a read line in the file with index `sourceId`. */
  function LineKey(sourceId: nat, l: LineRead): D.Line {
    D.Line(sourceId, l.num)
  }

  /** The facts a line adds with line index `lineIdx`: none or exactly one. */
  function FactOf(testId: nat, lineIdx: nat, l: LineRead): seq<LineCoverage> {
    match l.fact
    case None => []
    case Some(info) => [LineCoverage(testId, lineIdx, info)]
  }

  /** `parse_line_node`: intern the line key first, then filter. */
  function IngestLine(s: Store, testId: nat, sourceId: nat, l: LineRead): Store {
    var r := InternLine(s, LineKey(sourceId, l));
    r.0.(data := r.0.data + FactOf(testId, r.1, l))
  }

  /** The loop of `parse_file_node` over the read `<line>` children `nodes`:
      the file path is interned once per line child, then the line is
      ingested. */
  function IngestLines(s: Store, testId: nat, path: string, nodes: seq<LineRead>): Store
    decreases |nodes|
  {
    if nodes == [] then s
    else
      var prev := IngestLines(s, testId, path, nodes[..|nodes| - 1]);
      var r := InternFile(prev, path);
      IngestLine(r.0, testId, r.1, nodes[|nodes| - 1])
  }

  /** `parse_file_node`. */
  function IngestFile(s: Store, testId: nat, fileNode: Node): Store {
    IngestLines(s, testId, fileNode.Attr("path"), MapSeq(ReadLine, fileNode.ChildrenNamed("line")))
  }

  /** The loop over the `<file>` children of a package. */
  function IngestFiles(s: Store, testId: nat, files: seq<Node>): Store
    decreases |files|
  {
    if files == [] then s
    else IngestFile(IngestFiles(s, testId, files[..|files| - 1]), testId, files[|files| - 1])
  }

  /** The loop over the `<package>` children of a project. */
  function IngestPackages(s: Store, testId: nat, packages: seq<Node>): Store
    decreases |packages|
  {
    if packages == [] then s
    else
      var prev := IngestPackages(s, testId, packages[..|packages| - 1]);
      IngestFiles(prev, testId, packages[|packages| - 1].ChildrenNamed("file"))
  }

  /** The loop over the `<project>` children of the root. */
  function IngestProjects(s: Store, testId: nat, projects: seq<Node>): Store
    decreases |projects|
  {
    if projects == [] then s
    else
      var prev := IngestProjects(s, testId, projects[..|projects| - 1]);
      IngestPackages(prev, testId, projects[|projects| - 1].ChildrenNamed("package"))
  }

  lemma IngestFilesSnoc(s: Store, testId: nat, files: seq<Node>, f: Node)
    ensures IngestFiles(s, testId, files + [f]) == IngestFile(IngestFiles(s, testId, files), testId, f)
  {
    assert (files + [f])[..|files|] == files;
  }

  lemma IngestPackagesSnoc(s: Store, testId: nat, packages: seq<Node>, p: Node)
    ensures IngestPackages(s, testId, packages + [p])
      == IngestFiles(IngestPackages(s, testId, packages), testId, p.ChildrenNamed("file"))
  {
    assert (packages + [p])[..|packages|] == packages;
  }

  lemma IngestProjectsSnoc(s: Store, testId: nat, projects: seq<Node>, p: Node)
    ensures IngestProjects(s, testId, projects + [p])
      == IngestPackages(IngestProjects(s, testId, projects), testId, p.ChildrenNamed("package"))
  {
    assert (projects + [p])[..|projects|] == projects;
  }

  /** `parse`: refuse a document that did not load or whose `<coverage>` root
      lacks the `clover` attribute, leaving the store as it was; otherwise
      ingest every file of every package of every project. */
  function IngestReport(s: Store, testId: nat, input: LoadResult): (Store, bool) {
    if input.LoadFailed? then (s, false)
    else
      var root := input.document.Child("coverage");
      if !root.Has("clover") then (s, false)
      else (IngestProjects(s, testId, root.ChildrenNamed("project")), true)
  }

  /** How many of `nodes` pass the zero-signal filter. */
  function FactCount(nodes: seq<LineRead>): (n: nat)
    ensures n <= |nodes|
  {
    if nodes == [] then 0
    else FactCount(nodes[..|nodes| - 1]) + (if nodes[|nodes| - 1].fact.Some? then 1 else 0)
  }

  /** The facts that `nodes` produce for test `testId` in file `fileId`,
      given the final line index `index`. */
  function FactsFor(testId: nat, fileId: nat, index: map<D.Line, nat>, nodes: seq<LineRead>): (r: seq<LineCoverage>)
    requires forall i :: 0 <= i < |nodes| ==> LineKey(fileId, nodes[i]) in index
    ensures |r| == FactCount(nodes)
    ensures forall i :: 0 <= i < |r| ==> r[i].testId == testId
    decreases |nodes|
  {
    if nodes == [] then []
    else
      var n := nodes[|nodes| - 1];
      FactsFor(testId, fileId, index, nodes[..|nodes| - 1]) + FactOf(testId, index[LineKey(fileId, n)], n)
  }

  /** Ingesting one line: the line key is interned whether or not the line is
      filtered out, and exactly the filtered facts are appended. */
  lemma IngestLineSpec(s: Store, testId: nat, sourceId: nat, node: LineRead)
    requires WellFormed(s) && sourceId < |s.sourceFiles|
    ensures var r := IngestLine(s, testId, sourceId, node);
      && WellFormed(r) && Extends(s, r)
      && r.sourceFiles == s.sourceFiles && r.file2idx == s.file2idx
      && r.tests == s.tests && r.test2idx == s.test2idx
      && LineKey(sourceId, node) in r.line2idx
      && r.data == s.data + FactOf(testId, r.line2idx[LineKey(sourceId, node)], node)
  {
    InternSpec(s.lines, s.line2idx, LineKey(sourceId, node));
    var r := IngestLine(s, testId, sourceId, node);
    assert forall i :: 0 <= i < |r.lines| ==> r.lines[i].sourceId < |r.sourceFiles| by {
      forall i | 0 <= i < |r.lines|
        ensures r.lines[i].sourceId < |r.sourceFiles|
      {
        if i < |s.lines| {
          assert r.lines[i] == s.lines[i];
        }
      }
    }
  }

  /** Interning a path then ingesting a line: the step of `IngestLines`. */
  lemma IngestStepSpec(s: Store, testId: nat, path: string, node: LineRead)
    requires WellFormed(s)
    ensures var f := InternFile(s, path);
      var r := IngestLine(f.0, testId, f.1, node);
      && WellFormed(f.0) && f.1 < |f.0.sourceFiles|
      && WellFormed(r) && Extends(s, r)
      && path in r.file2idx && r.file2idx[path] == f.1
      && (path in s.file2idx ==> r.sourceFiles == s.sourceFiles && r.file2idx == s.file2idx)
      && r.tests == s.tests && r.test2idx == s.test2idx
      && LineKey(f.1, node) in r.line2idx
      && r.data == s.data + FactOf(testId, r.line2idx[LineKey(f.1, node)], node)
  {
    InternSpec(s.sourceFiles, s.file2idx, path);
    var f := InternFile(s, path);
    assert WellFormed(f.0) by {
      assert forall i :: 0 <= i < |f.0.lines| ==> f.0.lines[i].sourceId < |f.0.sourceFiles|;
    }
    IngestLineSpec(f.0, testId, f.1, node);
  }

  lemma IngestLinesSnoc(s: Store, testId: nat, path: string, nodes: seq<LineRead>, n: LineRead)
    ensures var prev := IngestLines(s, testId, path, nodes);
      IngestLines(s, testId, path, nodes + [n]) == IngestLine(InternFile(prev, path).0, testId, InternFile(prev, path).1, n)
  {
    assert (nodes + [n])[..|nodes|] == nodes;
  }

  /** The loop of `parse_file_node` only grows the store and keeps it well
      formed; it appends one fact per line that passes the filter; and the
      path is registered exactly when there is at least one line child. */
  lemma {:induction false} IngestLinesSpec(s: Store, testId: nat, path: string, nodes: seq<LineRead>)
    requires WellFormed(s)
    ensures var r := IngestLines(s, testId, path, nodes);
      && WellFormed(r) && Extends(s, r)
      && r.tests == s.tests && r.test2idx == s.test2idx
      && |r.data| == |s.data| + FactCount(nodes)
      && (path in r.file2idx <==> path in s.file2idx || |nodes| > 0)
      && (path in s.file2idx ==> r.sourceFiles == s.sourceFiles && r.file2idx == s.file2idx)
    decreases |nodes|
  {
    if nodes != [] {
      var ns := nodes[..|nodes| - 1];
      var n := nodes[|nodes| - 1];
      IngestLinesSpec(s, testId, path, ns);
      var prev := IngestLines(s, testId, path, ns);
      IngestStepSpec(prev, testId, path, n);
      assert FactCount(nodes) == FactCount(ns) + |FactOf(testId, 0, n)|;
      ExtendsTransitive(s, prev, IngestLines(s, testId, path, nodes));
    }
  }

  /** Every line child's key is interned, whether or not the line passes the
      filter: the line index is allocated before the filter runs. */
  lemma {:induction false} IngestLinesInternsKeys(s: Store, testId: nat, path: string, nodes: seq<LineRead>)
    requires WellFormed(s) && |nodes| > 0
    ensures var r := IngestLines(s, testId, path, nodes);
      && path in r.file2idx
      && forall i :: 0 <= i < |nodes| ==> LineKey(r.file2idx[path], nodes[i]) in r.line2idx
    decreases |nodes|
  {
    var ns := nodes[..|nodes| - 1];
    var n := nodes[|nodes| - 1];
    var prev := IngestLines(s, testId, path, ns);
    var r := IngestLines(s, testId, path, nodes);
    assert && path in r.file2idx && LineKey(r.file2idx[path], n) in r.line2idx
           && MapExtends(prev.line2idx, r.line2idx)
           && (ns != [] ==> path in prev.file2idx && prev.file2idx[path] == r.file2idx[path]) by {
      IngestLinesSpec(s, testId, path, ns);
      IngestStepSpec(prev, testId, path, n);
    }
    var fid := r.file2idx[path];
    if ns != [] {
      assert forall i :: 0 <= i < |ns| ==> LineKey(fid, ns[i]) in prev.line2idx by {
        IngestLinesInternsKeys(s, testId, path, ns);
      }
    }
    forall i | 0 <= i < |nodes|
      ensures LineKey(fid, nodes[i]) in r.line2idx
    {
      if i < |ns| {
        assert nodes[i] == ns[i];
      }
    }
  }

  /** The facts a node list adds do not depend on keys added later. */
  lemma {:induction false} FactsForStable(testId: nat, fileId: nat, index: map<D.Line, nat>, index': map<D.Line, nat>, nodes: seq<LineRead>)
    requires forall i :: 0 <= i < |nodes| ==> LineKey(fileId, nodes[i]) in index
    requires MapExtends(index, index')
    ensures FactsFor(testId, fileId, index, nodes) == FactsFor(testId, fileId, index', nodes)
    decreases |nodes|
  {
    if nodes != [] {
      FactsForStable(testId, fileId, index, index', nodes[..|nodes| - 1]);
    }
  }

  /** The facts `parse_file_node` appends are, in document order, those of
      the line children that pass the filter, each tagged with the test and
      with the index its line key has in the final table. */
  lemma {:induction false} IngestLinesFacts(s: Store, testId: nat, path: string, nodes: seq<LineRead>)
    requires WellFormed(s) && |nodes| > 0
    ensures var r := IngestLines(s, testId, path, nodes);
      && path in r.file2idx
      && (forall i :: 0 <= i < |nodes| ==> LineKey(r.file2idx[path], nodes[i]) in r.line2idx)
      && r.data == s.data + FactsFor(testId, r.file2idx[path], r.line2idx, nodes)
    decreases |nodes|
  {
    var ns := nodes[..|nodes| - 1];
    var n := nodes[|nodes| - 1];
    var prev := IngestLines(s, testId, path, ns);
    var r := IngestLines(s, testId, path, nodes);
    assert path in r.file2idx && forall i :: 0 <= i < |nodes| ==> LineKey(r.file2idx[path], nodes[i]) in r.line2idx by {
      IngestLinesInternsKeys(s, testId, path, nodes);
    }
    var fid := r.file2idx[path];
    assert MapExtends(prev.line2idx, r.line2idx)
        && (ns != [] ==> path in prev.file2idx && prev.file2idx[path] == fid)
        && r.data == prev.data + FactOf(testId, r.line2idx[LineKey(fid, n)], n) by {
      IngestLinesSpec(s, testId, path, ns);
      IngestStepSpec(prev, testId, path, n);
    }
    var last := FactOf(testId, r.line2idx[LineKey(fid, n)], n);
    assert FactsFor(testId, fid, r.line2idx, nodes) == FactsFor(testId, fid, r.line2idx, ns) + last by {
      FactsForSnoc(testId, fid, r.line2idx, nodes);
    }
    if ns != [] {
      var before := FactsFor(testId, fid, r.line2idx, ns);
      assert prev.data == s.data + before by {
        IngestLinesFacts(s, testId, path, ns);
        FactsForStable(testId, fid, prev.line2idx, r.line2idx, ns);
      }
      assert s.data + before + last == s.data + (before + last);
    } else {
      assert FactsFor(testId, fid, r.line2idx, ns) == [];
    }
  }

  lemma FactsForSnoc(testId: nat, fileId: nat, index: map<D.Line, nat>, nodes: seq<LineRead>)
    requires |nodes| > 0
    requires forall i :: 0 <= i < |nodes| ==> LineKey(fileId, nodes[i]) in index
    ensures FactsFor(testId, fileId, index, nodes) ==
      FactsFor(testId, fileId, index, nodes[..|nodes| - 1]) + FactOf(testId, index[LineKey(fileId, nodes[|nodes| - 1])], nodes[|nodes| - 1])
  {
  }

  /** When the path and every line key are already known, ingesting the lines
      again changes no table; only facts are appended. */
  lemma {:induction false} IngestKnownLines(s: Store, testId: nat, path: string, nodes: seq<LineRead>)
    requires WellFormed(s) && path in s.file2idx
    requires forall i :: 0 <= i < |nodes| ==> LineKey(s.file2idx[path], nodes[i]) in s.line2idx
    ensures var r := IngestLines(s, testId, path, nodes);
      && r.sourceFiles == s.sourceFiles && r.file2idx == s.file2idx
      && r.lines == s.lines && r.line2idx == s.line2idx
    decreases |nodes|
  {
    if nodes != [] {
      var ns := nodes[..|nodes| - 1];
      var n := nodes[|nodes| - 1];
      IngestKnownLines(s, testId, path, ns);
      var prev := IngestLines(s, testId, path, ns);
      InternSpec(prev.sourceFiles, prev.file2idx, path);
      InternSpec(prev.lines, prev.line2idx, LineKey(prev.file2idx[path], n));
    }
  }

  /** Ingesting the same `<line>` children again, for any test: no new path or
      line index is allocated (the same (file, line) resolves to the same
      index across tests) and the very same facts, retagged with the second
      test, are appended again; nothing is deduplicated. */
  lemma ReingestAddsOnlyFacts(s: Store, t1: nat, t2: nat, path: string, nodes: seq<LineRead>)
    requires WellFormed(s) && |nodes| > 0
    ensures var s1 := IngestLines(s, t1, path, nodes);
      var s2 := IngestLines(s1, t2, path, nodes);
      && path in s1.file2idx
      && (forall i :: 0 <= i < |nodes| ==> LineKey(s1.file2idx[path], nodes[i]) in s1.line2idx)
      && s1.data == s.data + FactsFor(t1, s1.file2idx[path], s1.line2idx, nodes)
      && s2.sourceFiles == s1.sourceFiles && s2.file2idx == s1.file2idx
      && s2.lines == s1.lines && s2.line2idx == s1.line2idx
      && s2.data == s1.data + FactsFor(t2, s1.file2idx[path], s1.line2idx, nodes)
  {
    IngestLinesSpec(s, t1, path, nodes);
    IngestLinesFacts(s, t1, path, nodes);
    var s1 := IngestLines(s, t1, path, nodes);
    IngestKnownLines(s1, t2, path, nodes);
    IngestLinesFacts(s1, t2, path, nodes);
  }

  /** The fact list keeps duplicates: ingesting a file's lines twice for the
      same test appends the same block of facts twice. */
  lemma DuplicateFactsKept(s: Store, testId: nat, path: string, nodes: seq<LineRead>)
    requires WellFormed(s) && |nodes| > 0
    ensures var s1 := IngestLines(s, testId, path, nodes);
      var s2 := IngestLines(s1, testId, path, nodes);
      s.data <= s1.data && s2.data == s.data + s1.data[|s.data|..] + s1.data[|s.data|..]
  {
    ReingestAddsOnlyFacts(s, testId, testId, path, nodes);
    var s1 := IngestLines(s, testId, path, nodes);
    assert s1.data[|s.data|..] == FactsFor(testId, s1.file2idx[path], s1.line2idx, nodes);
  }

  lemma {:induction false} IngestFilesSpec(s: Store, testId: nat, files: seq<Node>)
    requires WellFormed(s)
    ensures var r := IngestFiles(s, testId, files);
      WellFormed(r) && Extends(s, r) && r.tests == s.tests && r.test2idx == s.test2idx
    decreases |files|
  {
    if files != [] {
      var prev := IngestFiles(s, testId, files[..|files| - 1]);
      IngestFilesSpec(s, testId, files[..|files| - 1]);
      var f := files[|files| - 1];
      IngestLinesSpec(prev, testId, f.Attr("path"), MapSeq(ReadLine, f.ChildrenNamed("line")));
      ExtendsTransitive(s, prev, IngestFiles(s, testId, files));
    }
  }

  lemma {:induction false} IngestPackagesSpec(s: Store, testId: nat, packages: seq<Node>)
    requires WellFormed(s)
    ensures var r := IngestPackages(s, testId, packages);
      WellFormed(r) && Extends(s, r) && r.tests == s.tests && r.test2idx == s.test2idx
    decreases |packages|
  {
    if packages != [] {
      var prev := IngestPackages(s, testId, packages[..|packages| - 1]);
      IngestPackagesSpec(s, testId, packages[..|packages| - 1]);
      IngestFilesSpec(prev, testId, packages[|packages| - 1].ChildrenNamed("file"));
      ExtendsTransitive(s, prev, IngestPackages(s, testId, packages));
    }
  }

  lemma {:induction false} IngestProjectsSpec(s: Store, testId: nat, projects: seq<Node>)
    requires WellFormed(s)
    ensures var r := IngestProjects(s, testId, projects);
      WellFormed(r) && Extends(s, r) && r.tests == s.tests && r.test2idx == s.test2idx
    decreases |projects|
  {
    if projects != [] {
      var prev := IngestProjects(s, testId, projects[..|projects| - 1]);
      IngestProjectsSpec(s, testId, projects[..|projects| - 1]);
      IngestPackagesSpec(prev, testId, projects[|projects| - 1].ChildrenNamed("package"));
      ExtendsTransitive(s, prev, IngestProjects(s, testId, projects));
    }
  }

  /** `parse` returns false and leaves the store untouched exactly when the
      document failed to load or is not a Clover report; an accepted report
      only grows the store, keeps it well formed and never touches the tests. */
  lemma IngestReportSpec(s: Store, testId: nat, input: LoadResult)
    requires WellFormed(s)
    ensures var r := IngestReport(s, testId, input);
      && (!r.1 <==> input.LoadFailed? || !input.document.Child("coverage").Has("clover"))
      && (!r.1 ==> r.0 == s)
      && WellFormed(r.0) && Extends(s, r.0)
      && r.0.tests == s.tests && r.0.test2idx == s.test2idx
  {
    if input.Loaded? {
      var root := input.document.Child("coverage");
      if root.Has("clover") {
        IngestProjectsSpec(s, testId, root.ChildrenNamed("project"));
      }
    }
  }

  /** `clover::Database`: the tables as vectors and maps updated in place. */
  class Database {
    var sourceFiles: seq<string>
    var tests: seq<Test>
    var lines: seq<D.Line>
    var data: seq<LineCoverage>
    var file2idx: map<string, nat>
    var line2idx: map<D.Line, nat>
    var test2idx: map<Test, nat>

    function Model(): Store
      reads this
    {
      Store(sourceFiles, tests, lines, data, file2idx, line2idx, test2idx)
    }

    ghost predicate Valid()
      reads this
    {
      WellFormed(Model())
    }

    constructor ()
      ensures Valid() && Model() == EmptyStore
    {
      sourceFiles, tests, lines, data := [], [], [], [];
      file2idx, line2idx, test2idx := map[], map[], map[];
    }

    /** `get_test_index`. */
    method GetTestIndex(t: Test) returns (idx: nat)
      requires Valid()
      modifies this
      ensures Valid() && idx < |tests| && tests[idx] == t
      ensures (Model(), idx) == InternTest(old(Model()), t)
    {
      InternSpec(tests, test2idx, t);
      if t in test2idx {
        return test2idx[t];
      }
      idx := |tests|;
      tests := tests + [t];
      test2idx := test2idx[t := idx];
    }

    /** `get_file_index`. */
    method GetFileIndex(path: string) returns (idx: nat)
      requires Valid()
      modifies this
      ensures Valid() && idx < |sourceFiles| && sourceFiles[idx] == path
      ensures (Model(), idx) == InternFile(old(Model()), path)
    {
      InternSpec(sourceFiles, file2idx, path);
      if path !in file2idx {
        idx := |sourceFiles|;
        file2idx := file2idx[path := idx];
        sourceFiles := sourceFiles + [path];
        assert forall i :: 0 <= i < |lines| ==> lines[i].sourceId < |sourceFiles|;
        return;
      }
      idx := file2idx[path];
    }

    /** `get_line_idx`; its callers pass a line of a known file. */
    method GetLineIdx(line: D.Line) returns (idx: nat)
      requires Valid() && line.sourceId < |sourceFiles|
      modifies this
      ensures Valid() && idx < |lines| && lines[idx] == line
      ensures (Model(), idx) == InternLine(old(Model()), line)
    {
      InternSpec(lines, line2idx, line);
      if line in line2idx {
        return line2idx[line];
      }
      idx := |lines|;
      line2idx := line2idx[line := idx];
      lines := lines + [line];
      assert forall i :: 0 <= i < |data| ==> data[i].lineId < |lines|;
    }

    /** `add_coverage_info`: appends unconditionally, duplicates included. */
    method AddCoverageInfo(fact: LineCoverage)
      requires Valid() && fact.lineId < |lines|
      modifies this
      ensures Valid()
      ensures Model() == old(Model()).(data := old(data) + [fact])
    {
      data := data + [fact];
    }

    /** `parse_line_node`. */
    method ParseLineNode(testId: nat, sourceId: nat, node: Node)
      requires Valid() && sourceId < |sourceFiles|
      modifies this
      ensures Valid()
      ensures Model() == IngestLine(old(Model()), testId, sourceId, ReadLine(node))
    {
      var linenum := node.Uint("num");
      var lineIdx := GetLineIdx(D.Line(sourceId, linenum));
      var info := DefaultInfo();
      var kind := node.Attr("type");
      if kind == "stmt" {
        info := info.(kind := D.Stmt, count := node.Uint("count"));
        if info.count == 0 {
          return;
        }
      } else if kind == "method" {
        info := info.(kind := D.Method, count := node.Uint("count"));
        if info.count == 0 {
          return;
        }
      } else if kind == "cond" {
        info := info.(kind := D.Cond, trueCount := node.Uint("truecount"), falseCount := node.Uint("falsecount"));
        if info.trueCount == 0 || info.falseCount == 0 {
          return;
        }
      }
      AddCoverageInfo(LineCoverage(testId, lineIdx, info));
    }

    /** `parse_file_node`: walks the `<line>` sibling chain. */
    method ParseFileNode(testId: nat, fileNode: Node)
      requires Valid()
      modifies this
      ensures Valid()
      ensures Model() == IngestFile(old(Model()), testId, fileNode)
    {
      var path := fileNode.Attr("path");
      var kids := fileNode.Kids();
      ghost var s0 := Model();
      var j := 0;
      while j < |kids|
        invariant j <= |kids|
        invariant Valid()
        invariant Model() == IngestLines(s0, testId, path, MapSeq(ReadLine, Named(kids[..j], "line")))
      {
        ghost var done := MapSeq(ReadLine, Named(kids[..j], "line"));
        NamedStep(kids, j, "line");
        if kids[j].IsNamed("line") {
          MapSeqSnoc(ReadLine, Named(kids[..j], "line"), kids[j]);
          IngestLinesSnoc(s0, testId, path, done, ReadLine(kids[j]));
          ghost var step := InternFile(Model(), path);
          var sourceId := GetFileIndex(path);
          assert Model() == step.0 && sourceId == step.1;
          ParseLineNode(testId, sourceId, kids[j]);
          assert Model() == IngestLines(s0, testId, path, done + [ReadLine(kids[j])]);
        }
        j := j + 1;
      }
      assert kids[..|kids|] == kids;
    }

    /** The loop of `parse` over the `<package>` children of one project. */
    method ParseProjectNode(testId: nat, projectNode: Node)
      requires Valid()
      modifies this
      ensures Valid()
      ensures Model() == IngestPackages(old(Model()), testId, projectNode.ChildrenNamed("package"))
    {
      ghost var s0 := Model();
      var packages := projectNode.Kids();
      var j := 0;
      while j < |packages|
        invariant j <= |packages|
        invariant Valid()
        invariant Model() == IngestPackages(s0, testId, Named(packages[..j], "package"))
      {
        NamedStep(packages, j, "package");
        if packages[j].IsNamed("package") {
          IngestPackagesSnoc(s0, testId, Named(packages[..j], "package"), packages[j]);
          ParsePackageNode(testId, packages[j]);
        }
        j := j + 1;
      }
      assert packages[..|packages|] == packages;
    }

    /** The loop of `parse` over the `<file>` children of one package. */
    method ParsePackageNode(testId: nat, packageNode: Node)
      requires Valid()
      modifies this
      ensures Valid()
      ensures Model() == IngestFiles(old(Model()), testId, packageNode.ChildrenNamed("file"))
    {
      ghost var s0 := Model();
      var files := packageNode.Kids();
      var k := 0;
      while k < |files|
        invariant k <= |files|
        invariant Valid()
        invariant Model() == IngestFiles(s0, testId, Named(files[..k], "file"))
      {
        NamedStep(files, k, "file");
        if files[k].IsNamed("file") {
          IngestFilesSnoc(s0, testId, Named(files[..k], "file"), files[k]);
          ParseFileNode(testId, files[k]);
        }
        k := k + 1;
      }
      assert files[..|files|] == files;
    }

    /** `parse`: checks the document, then walks projects, packages and files. */
    method Parse(testId: nat, input: LoadResult) returns (ok: bool)
      requires Valid()
      modifies this
      ensures Valid()
      ensures (Model(), ok) == IngestReport(old(Model()), testId, input)
    {
      if input.LoadFailed? {
        return false;
      }
      var root := input.document.Child("coverage");
      if !root.Has("clover") {
        return false;
      }
      ghost var s0 := Model();
      var projects := root.Kids();
      var i := 0;
      while i < |projects|
        invariant i <= |projects|
        invariant Valid()
        invariant Model() == IngestProjects(s0, testId, Named(projects[..i], "project"))
      {
        NamedStep(projects, i, "project");
        if projects[i].IsNamed("project") {
          IngestProjectsSnoc(s0, testId, Named(projects[..i], "project"), projects[i]);
          ParseProjectNode(testId, projects[i]);
        }
        i := i + 1;
      }
      assert projects[..|projects|] == projects;
      ok := true;
    }
  }
}
