# clover_parser in Dafny

A model of the core of `clover_parser`, a small C++ library that reads
Clover code-coverage XML reports and TAP/JUnit-style test-result XML
reports. The model has four parts.

- **The deduplicating index store** (`clover::Database`, module `Clover`).
  It is a class with the source's seven fields. Three of them are intern
  tables: file path → index, `Test(file, name)` → index and
  `Line(file, num)` → index. Each table is a list plus a map, with indices
  handed out densely in first-seen order. The fourth field is an
  append-only list of coverage facts. Each method is proved against a pure
  specification over a `Store` value (`IngestLine`, `IngestLines`,
  `IngestReport`, ...). A `<line>` element enters those functions as the
  record `ReadLine` reads off it: its number and its classified, filtered
  fact. Reading has no effect, so this does not change the order of the
  store updates. Lemmas about those functions state:
  - the invariants the tables keep;
  - the zero-signal filter;
  - that line keys are interned before that filter runs;
  - that duplicate facts are kept.
- **The tree builder and the metrics pass** (`coverage::CloverParser` and
  `compute_file_metrics`, module `CloverParser`). The builder maps a report
  1:1 into project → package → file → {class, line} records, keeping every
  child in order. `compute_file_metrics` is one counting pass over a file's
  lines.
- **The record types** (`src/data_structures.hpp`, module `DataStructures`).
  These are the line key and its order, line records, metric records and
  their zeroing defaults, and the coverage tree.
- **The test-result builder** (`tap::Parser`, module `TapParser`). It maps
  testsuites → testsuite → testcase → failure into nested records.

The XML reader (pugixml) becomes an abstract tree, in module `Xml`:
- An element has a name, an attribute map and an ordered list of children.
- A missing attribute reads as "" and a missing number as 0.
- `node.child(tag)` returns the first child with that name, or the null
  node.
- A `child(tag)` / `next_sibling(tag)` chain is the list of children with
  that name, `Named`.
- Loading a file is not modelled; its outcome is an input, `LoadResult`,
  which is either a load failure or a document.
- A thrown `std::runtime_error` becomes an `Err` result.
- `Database::parse`'s `bool` stays a `bool`.

The file `filter_contrast.dfy` relates the two Clover readers. The tree
keeps every line, while the store records a fact only for a line with a
signal. The two agree on every fact the store records. They disagree on a
line of unknown `type`, which the tree zeroes and the store records.

Where the code and its documentation disagree, the model follows the code.
- `parse_line_node` checks an unknown `type` with `assert("...")`. That
  assertion is always true, so the line is recorded with the default
  `CoverageInfo` (kind statement, all counts 0) rather than rejected.
- `CloverParser` reads only the first `<project>`, while `Database::parse`
  reads all of them.

## Model

| member | source | states |
|---|---|---|
| DataStructures.LineEq | src/data_structures.hpp:23-25 | `==` on lines holds exactly when both the source id and the line number agree, i.e. it is identity of the key |
| DataStructures.LineLess | src/data_structures.hpp:31-33 | a line below another is a different line, of the same or an earlier file |
| DataStructures.LineGreater | src/data_structures.hpp:27-29 | `>` on lines, written as its own lexicographic comparison, holds exactly when `<` holds with the operands swapped |
| DataStructures.LineLessIsStrictTotalOrder | src/data_structures.hpp:31-33 | `<` on lines (lexicographic on source id, then number) is irreflexive, asymmetric, transitive and total |
| DataStructures.LineGreaterIsConverse | src/data_structures.hpp:27-33 | `a > b` exactly when `b < a`; `==` holds exactly when neither `<` nor `>` does |
| DataStructures.DefaultLineCoverage | src/data_structures.hpp:106-119 | the default line record has every number 0 and kind statement, the first enumerator |
| DataStructures.DefaultFileMetrics | src/data_structures.hpp:78-85 | the default file metrics have `classes` and every nested class counter 0 |
| DataStructures.DefaultPackageMetrics | src/data_structures.hpp:87-94 | the default package metrics are 0 at every level |
| DataStructures.DefaultProjectMetrics | src/data_structures.hpp:96-104 | the default project metrics are 0 at every level |
| Xml.Node.Attr | src/tap_parser.hpp:81-82 | a present attribute reads as its text, a missing one as "" |
| Xml.Node.Child | src/clover.hpp:125 | `child(tag)` is the first child with that name (element 0 of the chain) when there is one, and the null node otherwise |
| Xml.Node.Uint | src/clover.hpp:267 | `as_uint` on a missing attribute reads 0 |
| Xml.Node.Int | src/tap_parser.hpp:99 | `as_int` on a missing attribute reads 0 |
| Xml.ReadInt | src/tap_parser.hpp:99 | a signed read is negative only after a leading minus and never positive after one |
| Xml.Named | src/clover.hpp:133-138 | a sibling chain visits only children with the given name, and no more of them than there are children |
| Xml.NamedStep | src/clover.hpp:241 | advancing the loop by one child adds that child to the chain exactly when it has the name |
| Xml.NamedConcat | src/clover_parser.hpp:83-89 | the chain over a concatenation is the concatenation of the chains, so document order is kept |
| Xml.NamedMembers | src/clover_parser.hpp:97-99 | a node is in the chain exactly when it is a child with that name |
| Xml.ReadUint | src/clover.hpp:267 | an unsigned read agrees with the signed read on non-negative numerals and gives 0 for negative ones |
| Xml.ReadDecimal | src/tap_parser.hpp:99-101 | reading a rendered count gives that count, signed or unsigned, and its negation after a minus sign |
| Clover.StrLessIrreflexive | src/clover.hpp:62-64 | no string is below itself in the string order used by `Test`'s `<` |
| Clover.StrLessTransitive | src/clover.hpp:62-64 | the string order is transitive |
| Clover.StrLessTotal | src/clover.hpp:62-64 | any two different strings are ordered one way or the other |
| Clover.StrLess | src/clover.hpp:62-64 | the string order puts a proper prefix first and nothing below the empty string |
| Clover.TestLess | src/clover.hpp:62-64 | a test is never below itself |
| Clover.TestGreater | src/clover.hpp:58-60 | `>` on tests, written as its own tuple comparison, holds exactly when `<` holds with the operands swapped |
| Clover.TestLessIsStrictTotalOrder | src/clover.hpp:54-64 | `<` on tests (file, then name) is a strict total order, and `>` is `<` with the operands swapped |
| Clover.DefaultInfo | src/clover.hpp:74 | the default coverage info has kind statement and every count 0 |
| Clover.FactEq | src/clover.hpp:90-95 | two facts are `==` exactly when they differ at most in their coverage info |
| Clover.FactLess | src/clover.hpp:104-109 | a fact below another is never `==` to it |
| Clover.FactGreater | src/clover.hpp:97-102 | `>` on facts, written as its own comparison of (test index, line index), holds exactly when `<` holds with the operands swapped |
| Clover.FactEqIsIncomparability | src/clover.hpp:90-109 | two facts are `==` exactly when neither is `<` the other, equivalently when neither `<` nor `>` holds; `==` ignores the coverage info |
| Clover.Intern | src/clover.hpp:162-171 | after a lookup-or-append the key maps to the returned index, the list only grows by at most one, and no existing mapping changes |
| Clover.InternSpec | src/clover.hpp:148-159 | a known key returns its stored index and changes nothing; a new key gets the old list length, is appended and recorded; the list and the map keep indexing each other (`list[map[k]] == k`, each position has its one key) |
| Clover.InternIdempotent | src/clover.hpp:163-170 | looking the same key up twice is the same as once |
| Clover.ZeroSignalFilter | src/clover.hpp:273-298 | a line adds no fact exactly when it is a zero-count `stmt`/`method` or a `cond` with a zero true or false count; a line of unknown type adds the default fact |
| Clover.LineFact | src/clover.hpp:272-298 | a recorded conditional fact has both branch counts non-zero and `count` 0; a recorded method fact has a non-zero `count` and no branch counts; a recorded statement fact has no branch counts, and a zero `count` only as the default info of an unknown type |
| Clover.FactCount | src/clover.hpp:274-292 | at most one fact per line |
| Clover.FactsFor | src/clover.hpp:241-243 | the facts of a file's lines are one per line that passes the filter, all for the given test |
| Clover.IngestLineSpec | src/clover.hpp:265-299 | ingesting one line keeps the store well formed, only grows it, leaves files and tests alone, always interns the line key (filtered or not) and appends at most the one fact for it |
| Clover.IngestStepSpec | src/clover.hpp:241-243 | each `<line>` first (re-)interns the file's path, then ingests the line under that index |
| Clover.IngestLinesSpec | src/clover.hpp:240-245 | a file's lines keep the store well formed and growing, add one fact per line that passes the filter, and register the path exactly when there is at least one line |
| Clover.IngestLinesInternsKeys | src/clover.hpp:265-268 | after a file's lines the path is registered and every line's key is interned, including the keys of lines the filter drops |
| Clover.IngestLinesFacts | src/clover.hpp:240-245 | the facts a file's lines append are, in order, one per unfiltered line, pointing at that line's interned index |
| Clover.IngestKnownLines | src/clover.hpp:248-252 | when the path and every line key are already known, ingesting the lines again changes no table |
| Clover.ReingestAddsOnlyFacts | src/clover.hpp:261-263 | ingesting the same file again (for any test) leaves all tables unchanged and only appends facts |
| Clover.DuplicateFactsKept | src/clover.hpp:261-263 | ingesting the same file twice for the same test appends the same facts twice; nothing is deduplicated |
| Clover.IngestFilesSpec | src/clover.hpp:137-140 | the loop over a package's files keeps the store well formed and growing and leaves the tests alone |
| Clover.IngestPackagesSpec | src/clover.hpp:135-141 | the loop over a project's packages keeps the store well formed and growing and leaves the tests alone |
| Clover.IngestProjectsSpec | src/clover.hpp:133-142 | the loop over all projects keeps the store well formed and growing and leaves the tests alone |
| Clover.IngestReportSpec | src/clover.hpp:116-145 | `parse` returns false and changes nothing exactly when the document failed to load or its root lacks `clover`; otherwise the store stays well formed and only grows |
| Clover.Database.constructor | src/clover.hpp:203-220 | a new store is empty and well formed |
| Clover.Database.GetTestIndex | src/clover.hpp:148-159 | returns the test's index (`tests[idx] == t`) and updates the tables as the intern step does |
| Clover.Database.GetFileIndex | src/clover.hpp:162-171 | returns the path's index (`source_files[idx] == path`) and updates the tables as the intern step does |
| Clover.Database.GetLineIdx | src/clover.hpp:248-259 | returns the line's index (`lines[idx] == line`) and updates the tables as the intern step does |
| Clover.Database.AddCoverageInfo | src/clover.hpp:261-263 | appends exactly the given fact, with no duplicate check, and changes nothing else |
| Clover.Database.ParseLineNode | src/clover.hpp:265-299 | the new store is the line ingested into the old one |
| Clover.Database.ParseFileNode | src/clover.hpp:240-245 | the new store is the file's line chain ingested into the old one |
| Clover.Database.ParsePackageNode | src/clover.hpp:137-140 | the new store is the package's file chain ingested into the old one |
| Clover.Database.ParseProjectNode | src/clover.hpp:135-141 | the new store is the project's package chain ingested into the old one |
| Clover.Database.Parse | src/clover.hpp:116-145 | the result and the new store are those of `IngestReport` on the old store |
| CloverParser.ParseLineCoverage | src/clover_parser.hpp:51-69 | the line number is always read; a conditional record carries only branch counts and any other record only `count` |
| CloverParser.LineClassification | src/clover_parser.hpp:51-69 | `stmt`/`method` take `count` with the branch counts 0, `cond` takes the branch counts with `count` 0, an unknown type keeps the zeroed statement record; `num` is always read |
| CloverParser.ParseClassCoverage | src/clover_parser.hpp:71-76 | a class record holds the `name` attribute |
| CloverParser.FileKeepsEveryChild | src/clover_parser.hpp:78-91 | a file record has one class record per `<class>` child and one line record per `<line>` child, in document order, with no filtering |
| CloverParser.PackageKeepsEveryFile | src/clover_parser.hpp:93-101 | a package record has one file record per `<file>` child, in order |
| CloverParser.ProjectKeepsEveryPackage | src/clover_parser.hpp:103-114 | a project record has the `timestamp` and `name` attributes and one package record per `<package>` child, in order |
| CloverParser.ReportOfSpec | src/clover_parser.hpp:27-48 | a report is refused with the load error exactly when it failed to load and with the Clover error exactly when the root lacks `clover`; otherwise only the first `<project>` is read, and no project gives an empty record |
| CloverParser.ParseFileCoverage | src/clover_parser.hpp:78-91 | the two sibling loops build exactly the file record |
| CloverParser.CollectNamed | src/clover_parser.hpp:83-89 | a sibling loop that pushes `f` of each child named `tag` yields exactly `f` over the chain, in document order |
| CloverParser.ParsePackageCoverage | src/clover_parser.hpp:93-101 | the sibling loop builds exactly the package record |
| CloverParser.ParseProjectCoverage | src/clover_parser.hpp:103-114 | the sibling loop builds exactly the project record |
| CloverParser.Parse | src/clover_parser.hpp:27-48 | the result is the refusal or the tree that `ReportOf` gives |
| CloverParser.ParseClassMetrics | src/clover_parser.hpp:137-151 | each of the eleven counters is the attribute of the same name, 0 when missing |
| CloverParser.ParseFileMetrics | src/clover_parser.hpp:130-135 | `classes` is read, and the nested counters are read from the same node |
| CloverParser.ParsePackageMetrics | src/clover_parser.hpp:123-128 | `files` is read, and the nested counters are read from the same node |
| CloverParser.ParseProjectMetrics | src/clover_parser.hpp:116-121 | `packages` is read, and the nested counters are read from the same node |
| CloverParser.MissingMetricsReadZero | src/clover_parser.hpp:116-151 | a node without attributes reads as the all-zero default project metrics |
| CloverParser.CountKind | src/clover_parser.hpp:158-167 | the number of lines of a kind is at most the number of lines |
| CloverParser.CountCovered | src/clover_parser.hpp:161-167 | the covered lines of a kind never outnumber the lines of that kind |
| CloverParser.ComputeFileMetrics | src/clover_parser.hpp:155-181 | statements and methods count their lines, conditionals are twice the conditional lines (so even), covered counts use `count > 0` or for conditionals `truecount > 0`, elements and covered elements are the sums with covered ≤ total, and `classes`/`complexity`/`loc`/`ncloc` stay 0 |
| CloverParser.KindsPartitionLines | src/clover_parser.hpp:158-170 | every line falls in exactly one of the three counts, so they add up to the number of lines |
| CloverParser.MetricsIgnoreFalseCount | src/clover_parser.hpp:165-167 | changing only false counts changes no count: a conditional is covered by its true count alone |
| CloverParser.WorkedExample | src/clover_parser.hpp:155-181 | statement lines with counts 0, 1, 2 and a conditional with true count 1 and false count 0 give statements 3/2, conditionals 2/1, methods 0/0 and elements 5/3 |
| TapParser.ParseFailure | src/tap_parser.hpp:79-85 | `type` and `message` are copied, and `data` is the text of the first child, "" when there is none or it is an element |
| TapParser.TestcaseKeepsEveryFailure | src/tap_parser.hpp:87-95 | a test case has its `name` and one failure per `<failure>` child, in order |
| TapParser.TestsuiteKeepsEveryTestcase | src/tap_parser.hpp:97-108 | `failures` is whether the signed attribute is non-zero, `errors`/`tests` are unsigned reads, and there is one test case per `<testcase>` child, in order |
| TapParser.ResultsOfSpec | src/tap_parser.hpp:53-76 | a file is refused with the parse error exactly when it failed to load and with the TAP error exactly when there is no `<testsuites>` root; otherwise there is one suite per `<testsuite>` child, in order |
| TapParser.FailuresFlag | src/tap_parser.hpp:99 | the `failures` flag is set exactly when the rendered count, signed or not, is non-zero, and is clear when the attribute is missing |
| TapParser.CountersIgnoreChildren | src/tap_parser.hpp:99-102 | suites with the same attributes agree on `failures`, `errors`, `tests` and `name`, whatever test cases they hold |
| TapParser.ParseTestcase | src/tap_parser.hpp:87-95 | the sibling loop builds exactly the test case record |
| TapParser.ParseTestsuite | src/tap_parser.hpp:97-108 | the sibling loop builds exactly the suite record |
| TapParser.Parse | src/tap_parser.hpp:53-76 | the result is the refusal or the suite list that `ResultsOf` gives |
| FilterContrast.LineViewsAgree | src/clover.hpp:265-299 | every fact the store records for a line equals the tree's record of that line; for the known kinds the store records exactly the lines with a signal; an unknown kind has no signal in the tree but is recorded by the store |
| FilterContrast.FactCountFull | src/clover.hpp:274-292 | the fact count equals the number of lines exactly when no line is filtered out |
| FilterContrast.FileViewsCount | src/clover_parser.hpp:87-89 | for one file the tree holds one record per line, the store grows by the number of unfiltered lines, never more than the tree holds, and by as many only when nothing is filtered |

## Left out

- Reading bytes into a tree (`load_file`) is not modelled. Its outcome is an input: a load failure or a document.
- Xml.ReadUint: reads a decimal numeral with an optional sign. It does not model pugixml's leading whitespace, hexadecimal prefixes or saturation on overflow.
- Xml.ReadInt: reads a decimal numeral with an optional sign, with the same gaps as `ReadUint`. So `TapParser.TestsuiteOf` reads `failures="0x1"` or `failures=" 1"` as 0 and clears the flag that the source sets.
- Integer widths are not modelled. Counters, indices and `index_type`/`value_type` are unbounded `nat`, so the wrap-around of `unsigned int` counts and the overflow of `int` metric counters are not captured.
- Clover.Database.Parse: the source nests its three sibling loops in one method. The model runs the package and file loops in the helpers `ParseProjectNode` and `ParsePackageNode`. The store is updated in the same order.
- `Database::info`, `Database::print`, `get_type_string`, `print_file_coverage_info` and `src/utilities.hpp` are not modelled, because they only format text for the console.
- The `serialize` methods are not modelled, because they belong to a foreign serialisation library.
- The `std::hash` specialisations are not modelled. The maps are Dafny `map`s.
- `TestInfo` is not modelled; it has no behaviour.
- The `CoverageInfo` and `LineCoverageData` structs of `src/data_structures.hpp` are not modelled. The core does not use them.
- `clover.hpp`'s own `Line` and `CoverageType` have the same shape as those of `src/data_structures.hpp`, so the store uses the latter.
- Strings compare by character code. The model does not capture locale or encoding.
- The `throw` for an unexpected kind in `compute_file_metrics` cannot happen: the kind is one of three values.
- The command-line drivers in `unittests/` are not modelled. They only iterate over arguments and print.
