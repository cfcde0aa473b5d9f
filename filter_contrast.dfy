/**
 * The two Clover readers side by side: the tree builder keeps one record
 * per `<line>`, the index store keeps a fact only for lines with a signal.
 * These lemmas state where they agree and where they differ.
 */
module FilterContrast {
  import opened Wrappers
  import opened Xml
  import D = DataStructures
  import Clover
  import CloverParser

  /** What the store's filter asks of a line, read off a tree record: a
      non-zero count, or for a conditional both branch counts non-zero. */
  predicate HasSignal(l: D.LineCoverage) {
    if l.kind == D.Cond then l.trueCount > 0 && l.falseCount > 0 else l.count > 0
  }

  /** Whenever the store records a fact for a line, it is exactly the tree's
      record of that line (without the line number). For the three known
      kinds the store records a fact exactly when the tree record has a
      signal; a line of unknown kind has no signal in the tree, yet the store
      records the zeroed default fact for it. */
  lemma LineViewsAgree(node: Node)
    ensures var l := CloverParser.ParseLineCoverage(node);
      Clover.LineFact(node).Some? ==>
        Clover.LineFact(node).value == Clover.CoverageInfo(l.kind, l.count, l.trueCount, l.falseCount)
    ensures node.Attr("type") in {"stmt", "method", "cond"} ==>
      (Clover.LineFact(node).Some? <==> HasSignal(CloverParser.ParseLineCoverage(node)))
    ensures node.Attr("type") !in {"stmt", "method", "cond"} ==>
      && !HasSignal(CloverParser.ParseLineCoverage(node))
      && Clover.LineFact(node) == Some(Clover.DefaultInfo())
  {
  }

  /** Every line gives a fact exactly when the fact count reaches the number
      of lines. */
  lemma {:induction false} FactCountFull(nodes: seq<Clover.LineRead>)
    ensures Clover.FactCount(nodes) == |nodes| <==> forall i :: 0 <= i < |nodes| ==> nodes[i].fact.Some?
    decreases |nodes|
  {
    if nodes != [] {
      var ns := nodes[..|nodes| - 1];
      FactCountFull(ns);
      if forall i :: 0 <= i < |nodes| ==> nodes[i].fact.Some? {
        assert forall i :: 0 <= i < |ns| ==> ns[i].fact.Some? by {
          forall i | 0 <= i < |ns| ensures ns[i].fact.Some? {
            assert ns[i] == nodes[i];
          }
        }
      } else if Clover.FactCount(nodes) == |nodes| {
        assert Clover.FactCount(ns) == |ns|;
        forall i | 0 <= i < |nodes| ensures nodes[i].fact.Some? {
          if i < |ns| {
            assert ns[i] == nodes[i];
          }
        }
      }
    }
  }

  /** For one `<file>` node: the tree holds one record per line, the store
      grows by one fact per line with a signal, so never by more than the
      tree holds, and by as many only when no line is filtered out. */
  lemma FileViewsCount(s: Clover.Store, testId: nat, fileNode: Node)
    requires Clover.WellFormed(s)
    ensures var t := CloverParser.FileOf(fileNode);
      var r := Clover.IngestFile(s, testId, fileNode);
      var lines := fileNode.ChildrenNamed("line");
      && |t.lines| == |lines|
      && |r.data| == |s.data| + Clover.FactCount(MapSeq(Clover.ReadLine, lines))
      && |r.data| <= |s.data| + |t.lines|
      && (|r.data| == |s.data| + |t.lines| <==> forall i :: 0 <= i < |lines| ==> Clover.LineFact(lines[i]).Some?)
  {
    var lines := fileNode.ChildrenNamed("line");
    var readLines := MapSeq(Clover.ReadLine, lines);
    Clover.IngestLinesSpec(s, testId, fileNode.Attr("path"), readLines);
    FactCountFull(readLines);
    MapSeqIndex(Clover.ReadLine, lines);
  }
}
