/**
 * The console renderer (ActualTreePrinter.java).
 *
 * The printer is handed a node `top` of the shared tree and renders the
 * subtree of its first branch in pre-order: a class line per node, a result
 * line (and optional detail blocks) per attached entry, then the children in
 * list order; it finishes by clearing ROOT's branches. Theme glyphs are kept
 * abstract, a line is a structured value, and every println or stream replay
 * appends one line to `log`.
 */
module Printer {
  import opened Wrappers
  import opened NodeTree
  import Report

  /** The theme's glyphs: blank(), pipe(), entry(), end(), down(), dash(), successful(), failed(), skipped(), details(). */
  datatype Glyph = Blank | Pipe | Entry | End | Down | Dash | Successful | Failed | Skipped | Details

  datatype ReporterOptions = ReporterOptions(
    printBlankLineBetweenTests: bool,
    hideResultsOnSuccess: bool,
    printStacktraceOnError: bool,
    printStacktraceOnFailure: bool,
    printStdoutOnSuccess: bool,
    printStdoutOnError: bool,
    printStdoutOnFailure: bool,
    printStderrOnSuccess: bool,
    printStderrOnError: bool,
    printStderrOnFailure: bool)

  /** One unit of output, in the order it reaches the console. */
  datatype Line =
    | ClassLine(prefix: seq<Glyph>, name: string, elapsed: string)         // printClass
    | ResultLine(prefix: seq<Glyph>, mark: Glyph, title: string, note: string, elapsed: string)
    | PreambleLine(succeeded: bool, name: string)                           // details() + name
    | TextLine(text: string)
    | HeadingLine(text: string)                                             // a strong heading
    | ReplayLine(toStderr: bool, bytes: string)                             // captured output written back

  // ------------------------------------------------------------- tree shape

  /** tree.branches.get(0): the first branch of the node handed to the printer. */
  function RootChild(t: seq<NodeRec>, top: NodeId): (c: NodeId)
    requires WellFormed(t) && top < |t| && HasBranches(t, top)
    ensures top < c < |t| && t[c].parent == Some(top)
  {
    WellFormedAt(t, top);
    t[top].branches[0]
  }

  /** getLastItem(node.branches). */
  function LastChild(t: seq<NodeRec>, c: NodeId): (l: NodeId)
    requires WellFormed(t) && c < |t| && HasBranches(t, c)
    ensures c < l < |t| && t[l].parent == Some(c)
  {
    WellFormedAt(t, c);
    t[c].branches[|t[c].branches| - 1]
  }

  /** node.getParent() of a node below ROOT. */
  function ParentOf(t: seq<NodeRec>, n: NodeId): (p: NodeId)
    requires WellFormed(t) && n < |t| && t[n].depth > 0
    ensures p < n && t[n].parent == Some(p) && t[n].depth == t[p].depth + 1
  {
    WellFormedAt(t, n);
    t[n].parent.value
  }

  /**
   * isLastMissingBranch(node): true when the rendered family's first node has
   * no children; otherwise when the node is that node's last child or lies
   * below a node named like it.
   */
  function IsLastMissingBranch(t: seq<NodeRec>, top: NodeId, n: NodeId): bool
    requires WellFormed(t) && top < |t| && HasBranches(t, top) && n < |t|
  {
    var rootChild := RootChild(t, top);
    if HasBranches(t, rootChild) then
      var last := LastChild(t, rootChild);
      GetParent(t, n, t[last].name).Some? || n == last
    else true
  }

  /** The same condition stated over the node's chain of ancestors. */
  lemma IsLastMissingBranchIff(t: seq<NodeRec>, top: NodeId, n: NodeId)
    requires WellFormed(t) && top < |t| && HasBranches(t, top) && n < |t|
    ensures IsLastMissingBranch(t, top, n) <==>
              || !HasBranches(t, RootChild(t, top))
              || n == LastChild(t, RootChild(t, top))
              || exists j | 0 <= j < |Ancestors(t, n)| ::
                   t[Ancestors(t, n)[j]].name == t[LastChild(t, RootChild(t, top))].name
  {
    var rc := RootChild(t, top);
    if HasBranches(t, rc) {
      var last := LastChild(t, rc);
      GetParentNearest(t, n, t[last].name);
    }
  }

  // --------------------------------------------------------------- prefixes

  function Blanks(k: nat): (g: seq<Glyph>)
    ensures |g| == k && forall i | 0 <= i < k :: g[i] == Blank
  {
    seq(k, _ => Blank)
  }

  /** The first glyph of a line: blank() on the last missing branch, pipe() elsewhere. */
  function Lead(last: bool): Glyph {
    if last then Blank else Pipe
  }

  /**
   * The glyphs printClass puts before the class name: max(depth, 1) of them,
   * ending in down() for a node with children and dash() otherwise.
   */
  function ClassPrefix(t: seq<NodeRec>, top: NodeId, n: NodeId): (p: seq<Glyph>)
    requires WellFormed(t) && top < |t| && HasBranches(t, top) && n < |t|
    ensures var d := t[n].depth;
            && |p| == (if d >= 1 then d else 1)
            && p[|p| - 1] == (if HasBranches(t, n) then Down else Dash)
            && (d == 2 ==> p[0] == (if IsLastMissingBranch(t, top, n) then End else Entry))
            && (d > 2 ==> p[0] == Lead(IsLastMissingBranch(t, top, n)) && p[d - 2] == End)
            && (forall i | 1 <= i < d - 2 :: p[i] == Blank)
  {
    var d := t[n].depth;
    var lead :=
      if d > 2 then [Lead(IsLastMissingBranch(t, top, n))] + Blanks(d - 3) + [End]
      else if d == 2 then [if IsLastMissingBranch(t, top, n) then End else Entry]
      else [];
    lead + [if HasBranches(t, n) then Down else Dash]
  }

  /** List.indexOf: the first position holding e, or -1. */
  function IndexOf(es: seq<Report.Entry>, e: Report.Entry): (i: int)
    ensures -1 <= i < |es|
    ensures i >= 0 ==> es[i] == e && forall j | 0 <= j < i :: es[j] != e
    ensures i == -1 ==> forall j | 0 <= j < |es| :: es[j] != e
  {
    if |es| == 0 then -1
    else if es[0] == e then 0
    else
      var r := IndexOf(es[1..], e);
      assert forall j | 1 <= j < |es| :: es[j] == es[1..][j - 1];
      if r == -1 then -1 else r + 1
  }

  /** isLastTestToBeEval: true when the entry is NOT the node's last one. */
  predicate IsLastTestToBeEval(es: seq<Report.Entry>, e: Report.Entry) {
    IndexOf(es, e) + 1 != |es|
  }

  /** The results of a node are distinct objects; as values they are taken to be distinct too. */
  predicate Distinct(es: seq<Report.Entry>) {
    forall i, j | 0 <= i < j < |es| :: es[i] != es[j]
  }

  /** Among distinct results, the test at position k is "not last" exactly when k is not the last position. */
  lemma LastTestByPosition(es: seq<Report.Entry>, k: nat)
    requires Distinct(es) && k < |es|
    ensures IsLastTestToBeEval(es, es[k]) <==> k + 1 != |es|
  {
    var i := IndexOf(es, es[k]);
    assert i != -1;
  }

  /**
   * The glyphs getTestPrefix puts before a result: depth + 1 of them for a
   * node below ROOT; the last is end() for the node's last result and entry()
   * for the others.
   */
  function TestPrefix(t: seq<NodeRec>, top: NodeId, n: NodeId, e: Report.Entry): (p: seq<Glyph>)
    requires WellFormed(t) && top < |t| && HasBranches(t, top) && n < |t|
    ensures var d := t[n].depth;
            && |p| == (if d >= 1 then d + 1 else 2)
            && p[0] == Lead(IsLastMissingBranch(t, top, n))
            && p[|p| - 1] == (if IsLastTestToBeEval(t[n].entries, e) then Entry else End)
            && (forall i | 1 <= i < d - 1 :: p[i] == Blank)
            && (d > 1 ==> p[d - 1] == (if HasBranches(t, ParentOf(t, n)) && HasBranches(t, n) then Pipe else Blank))
  {
    var d := t[n].depth;
    var middle :=
      if d > 1 then
        var q := ParentOf(t, n);
        Blanks(d - 2) + [if HasBranches(t, q) && HasBranches(t, n) then Pipe else Blank]
      else [];
    [Lead(IsLastMissingBranch(t, top, n))] + middle + [if IsLastTestToBeEval(t[n].entries, e) then Entry else End]
  }

  /** Among distinct results, the last one's prefix ends in end(), every other one's in entry(). */
  lemma TestPrefixEnd(t: seq<NodeRec>, top: NodeId, n: NodeId, k: nat)
    requires WellFormed(t) && top < |t| && HasBranches(t, top) && n < |t|
    requires Distinct(t[n].entries) && k < |t[n].entries|
    ensures var p := TestPrefix(t, top, n, t[n].entries[k]);
            p[|p| - 1] == (if k + 1 == |t[n].entries| then End else Entry)
  {
    LastTestByPosition(t[n].entries, k);
  }

  // ------------------------------------------------------------------ names

  /**
   * cleanReportName: with a parent summary, drop the parent's name and one
   * separator character from the front of the node's own name.
   */
  function StripParentName(parent: Option<string>, own: string): (r: string)
    requires parent.Some? ==> |parent.value| + 1 <= |own|
    ensures parent.None? ==> r == own
    ensures parent.Some? ==> |r| == |own| - |parent.value| - 1
    ensures own[|own| - |r|..] == r
  {
    match parent
    case None => own
    case Some(pn) => own[|pn| + 1..]
  }

  /** A nested name built as parent name, separator, simple name is cleaned back to the simple name. */
  lemma StripJoinedName(pn: string, sep: char, simple: string)
    ensures StripParentName(Some(pn), pn + [sep] + simple) == simple
  {
    assert (pn + [sep] + simple)[|pn| + 1..] == simple;
  }

  /** The summary name of a node's parent, if the parent has a summary. */
  function ParentSummaryName(t: seq<NodeRec>, n: NodeId): Option<string>
    requires WellFormed(t) && n < |t| && t[n].depth > 0
  {
    match t[ParentOf(t, n)].classEntry
    case None => None
    case Some(pe) => Some(pe.reportNameWithGroup)
  }

  /**
   * What printClass needs not to fail on node n: a parent, a class summary,
   * and a name at least one character longer than the parent's summary name.
   */
  predicate ClassLineOk(t: seq<NodeRec>, n: NodeId)
    requires WellFormed(t) && n < |t|
  {
    && t[n].depth > 0 && t[n].classEntry.Some?
    && var pn := ParentSummaryName(t, n);
       pn.Some? ==> |pn.value| + 1 <= |t[n].classEntry.value.reportNameWithGroup|
  }

  function CleanReportName(t: seq<NodeRec>, n: NodeId): string
    requires WellFormed(t) && n < |t| && ClassLineOk(t, n)
  {
    StripParentName(ParentSummaryName(t, n), t[n].classEntry.value.reportNameWithGroup)
  }

  /** printClass's line. */
  function ClassLineOf(t: seq<NodeRec>, top: NodeId, n: NodeId): Line
    requires WellFormed(t) && top < |t| && HasBranches(t, top) && n < |t| && ClassLineOk(t, n)
  {
    ClassLine(ClassPrefix(t, top, n), CleanReportName(t, n), t[n].classEntry.value.elapsed)
  }

  // ---------------------------------------------------------------- results

  /** getSkippedReport: the test's name, or its source name when the name is blank. */
  function SkippedReport(e: Report.Entry): string {
    if !Report.IsBlank(Some(e.reportName)) then e.reportName else e.reportSourceName
  }

  /** getSkippedMessage: " (message)" for a non-blank message, nothing otherwise. */
  function SkippedMessage(e: Report.Entry): (s: string)
    ensures s == [] <==> Report.IsBlank(e.message)
    ensures s != [] ==> |s| >= 3 && s[..2] == " (" && s[|s| - 1] == ')' && s[2..|s| - 1] == e.message.value
  {
    if !Report.IsBlank(e.message) then " (" + e.message.value + ")" else ""
  }

  predicate PrintsStackTrace(o: ReporterOptions, s: Report.ReportEntryType) {
    || (o.printStacktraceOnError && s == Report.Error)
    || (o.printStacktraceOnFailure && s == Report.Failure)
  }

  predicate PrintsStdout(o: ReporterOptions, s: Report.ReportEntryType) {
    || (o.printStdoutOnSuccess && s == Report.Success)
    || (o.printStdoutOnError && s == Report.Error)
    || (o.printStdoutOnFailure && s == Report.Failure)
  }

  predicate PrintsStderr(o: ReporterOptions, s: Report.ReportEntryType) {
    || (o.printStderrOnSuccess && s == Report.Success)
    || (o.printStderrOnError && s == Report.Error)
    || (o.printStderrOnFailure && s == Report.Failure)
  }

  /** printStackTrace's body line: the trace, or a placeholder when it is null or blank. */
  function StackTraceText(e: Report.Entry): (s: string)
    ensures Report.IsBlank(e.stackTrace) ==> s == "[No stack trace available]"
    ensures !Report.IsBlank(e.stackTrace) ==> s == e.stackTrace.value
  {
    if e.stackTrace.Some? && !Report.IsBlank(e.stackTrace) then e.stackTrace.value
    else "[No stack trace available]"
  }

  /** printDetails: the preamble, then the stack trace, stdout and stderr blocks that are switched on. */
  function DetailLines(o: ReporterOptions, e: Report.Entry): seq<Line> {
    var st := PrintsStackTrace(o, e.status);
    var so := PrintsStdout(o, e.status);
    var se := PrintsStderr(o, e.status);
    if st || so || se then
      [PreambleLine(Report.IsSucceeded(e), e.reportName)]
      + (if st then [TextLine(""), HeadingLine("Stack trace"), TextLine(StackTraceText(e))] else [])
      + (if so then [TextLine(""), HeadingLine("Standard out"), ReplayLine(false, e.stdout)] else [])
      + (if se then [TextLine(""), HeadingLine("Standard error"), ReplayLine(true, e.stderr)] else [])
    else []
  }

  /** Details appear exactly when one of the three blocks is switched on for the entry's status. */
  lemma DetailsGating(o: ReporterOptions, e: Report.Entry)
    ensures DetailLines(o, e) != [] <==>
              PrintsStackTrace(o, e.status) || PrintsStdout(o, e.status) || PrintsStderr(o, e.status)
    ensures DetailLines(o, e) != [] ==> DetailLines(o, e)[0] == PreambleLine(Report.IsSucceeded(e), e.reportName)
  {
  }

  /** A skipped test never prints details, and a successful one never prints a stack trace. */
  lemma DetailsByStatus(o: ReporterOptions, e: Report.Entry)
    ensures Report.IsSkipped(e) ==> DetailLines(o, e) == []
    ensures Report.IsSucceeded(e) ==> HeadingLine("Stack trace") !in DetailLines(o, e)
  {
    if Report.IsSucceeded(e) {
      var so := PrintsStdout(o, e.status);
      var se := PrintsStderr(o, e.status);
      var tail := (if so then [TextLine(""), HeadingLine("Standard out"), ReplayLine(false, e.stdout)] else [])
                  + (if se then [TextLine(""), HeadingLine("Standard error"), ReplayLine(true, e.stderr)] else []);
      assert HeadingLine("Stack trace") !in tail;
    }
  }

  /** The result line printTestFormated prints for the entry's status; none for a hidden success. */
  function ResultPart(o: ReporterOptions, t: seq<NodeRec>, top: NodeId, n: NodeId, e: Report.Entry): (r: seq<Line>)
    requires WellFormed(t) && top < |t| && HasBranches(t, top) && n < |t|
    ensures |r| == if o.hideResultsOnSuccess && Report.IsSucceeded(e) then 0 else 1
    ensures forall i | 0 <= i < |r| :: r[i].ResultLine? && r[i].prefix == TestPrefix(t, top, n, e)
  {
    if Report.IsErrorOrFailure(e) then
      [ResultLine(TestPrefix(t, top, n, e), Failed, e.reportName, "", e.elapsed)]
    else if Report.IsSkipped(e) then
      [ResultLine(TestPrefix(t, top, n, e), Skipped, SkippedReport(e), SkippedMessage(e), e.elapsed)]
    else if !o.hideResultsOnSuccess && Report.IsSucceeded(e) then
      [ResultLine(TestPrefix(t, top, n, e), Successful, e.reportName, "", e.elapsed)]
    else []
  }

  /** printTestFormated: the result line, then the entry's details. */
  function EntryLines(o: ReporterOptions, t: seq<NodeRec>, top: NodeId, n: NodeId, e: Report.Entry): seq<Line>
    requires WellFormed(t) && top < |t| && HasBranches(t, top) && n < |t|
  {
    ResultPart(o, t, top, n, e) + DetailLines(o, e)
  }

  function IsResult(l: Line): bool { l.ResultLine? }

  /** The result lines among some output, in order. */
  function Results(ls: seq<Line>): (rs: seq<Line>)
    ensures |rs| <= |ls|
    ensures forall i | 0 <= i < |rs| :: rs[i].ResultLine?
  {
    if |ls| == 0 then []
    else Results(ls[..|ls| - 1]) + (if ls[|ls| - 1].ResultLine? then [ls[|ls| - 1]] else [])
  }

  lemma {:induction false} ResultsConcat(a: seq<Line>, b: seq<Line>)
    ensures Results(a + b) == Results(a) + Results(b)
    decreases |b|
  {
    if |b| > 0 {
      var c := a + b;
      var b' := b[..|b| - 1];
      var x := b[|b| - 1];
      var tail := if x.ResultLine? then [x] else [];
      assert c[..|c| - 1] == a + b' && c[|c| - 1] == x;
      assert Results(c) == Results(a + b') + tail;
      ResultsConcat(a, b');
      assert Results(b) == Results(b') + tail;
      assert Results(a) + (Results(b') + tail) == (Results(a) + Results(b')) + tail;
    } else {
      assert a + b == a;
    }
  }

  lemma DetailsHaveNoResult(o: ReporterOptions, e: Report.Entry)
    ensures Results(DetailLines(o, e)) == []
  {
    var ls := DetailLines(o, e);
    NoResultLines(ls);
  }

  lemma {:induction false} NoResultLines(ls: seq<Line>)
    requires forall i | 0 <= i < |ls| :: !ls[i].ResultLine?
    ensures Results(ls) == []
    decreases |ls|
  {
    if |ls| > 0 {
      NoResultLines(ls[..|ls| - 1]);
    }
  }

  /** The number of successful results. */
  function Successes(es: seq<Report.Entry>): nat {
    if |es| == 0 then 0 else Successes(es[..|es| - 1]) + (if Report.IsSucceeded(es[|es| - 1]) then 1 else 0)
  }

  /** The results of a node, in list order. */
  function EntriesLines(o: ReporterOptions, t: seq<NodeRec>, top: NodeId, n: NodeId, es: seq<Report.Entry>): seq<Line>
    requires WellFormed(t) && top < |t| && HasBranches(t, top) && n < |t|
  {
    if |es| == 0 then []
    else EntriesLines(o, t, top, n, es[..|es| - 1]) + EntryLines(o, t, top, n, es[|es| - 1])
  }

  /**
   * One result line per entry, except the successes when they are hidden;
   * hidden or not, each entry's details are still produced.
   */
  lemma {:induction false} ResultCount(o: ReporterOptions, t: seq<NodeRec>, top: NodeId, n: NodeId, es: seq<Report.Entry>)
    requires WellFormed(t) && top < |t| && HasBranches(t, top) && n < |t|
    ensures |Results(EntriesLines(o, t, top, n, es))| == |es| - (if o.hideResultsOnSuccess then Successes(es) else 0)
    decreases |es|
  {
    if |es| > 0 {
      var init := es[..|es| - 1];
      var e := es[|es| - 1];
      ResultCount(o, t, top, n, init);
      ResultsConcat(EntriesLines(o, t, top, n, init), EntryLines(o, t, top, n, e));
      EntryResultCount(o, t, top, n, e);
    }
  }

  /** One entry prints one result line, none when it is a hidden success. */
  lemma EntryResultCount(o: ReporterOptions, t: seq<NodeRec>, top: NodeId, n: NodeId, e: Report.Entry)
    requires WellFormed(t) && top < |t| && HasBranches(t, top) && n < |t|
    ensures |Results(EntryLines(o, t, top, n, e))| == if o.hideResultsOnSuccess && Report.IsSucceeded(e) then 0 else 1
  {
    var result := ResultPart(o, t, top, n, e);
    AllResults(result);
    DetailsHaveNoResult(o, e);
    ResultsConcat(result, DetailLines(o, e));
  }

  lemma {:induction false} AllResults(ls: seq<Line>)
    requires forall i | 0 <= i < |ls| :: ls[i].ResultLine?
    ensures Results(ls) == ls
    decreases |ls|
  {
    if |ls| > 0 {
      AllResults(ls[..|ls| - 1]);
      assert ls[..|ls| - 1] + [ls[|ls| - 1]] == ls;
    }
  }

  /** A hidden success prints no result line but still prints its details. */
  lemma HiddenSuccess(o: ReporterOptions, t: seq<NodeRec>, top: NodeId, n: NodeId, e: Report.Entry)
    requires WellFormed(t) && top < |t| && HasBranches(t, top) && n < |t|
    requires o.hideResultsOnSuccess && Report.IsSucceeded(e)
    ensures EntryLines(o, t, top, n, e) == DetailLines(o, e)
  {
  }

  // -------------------------------------------------------------- traversal

  /** printClass can be applied to n and to every node below it. */
  ghost predicate Renderable(t: seq<NodeRec>, n: NodeId)
    requires WellFormed(t) && n < |t|
    decreases |t| - n
  {
    && ClassLineOk(t, n)
    && (WellFormedAt(t, n);
        forall k | 0 <= k < |t[n].branches| :: Renderable(t, t[n].branches[k]))
  }

  /** print(node): the class line, the node's results, then each child's subtree. */
  function RenderNode(o: ReporterOptions, t: seq<NodeRec>, top: NodeId, n: NodeId): seq<Line>
    requires WellFormed(t) && top < |t| && HasBranches(t, top) && n < |t| && Renderable(t, n)
    decreases |t| - n, 1
  {
    WellFormedAt(t, n);
    [ClassLineOf(t, top, n)] + EntriesLines(o, t, top, n, t[n].entries) + RenderBranches(o, t, top, n, t[n].branches)
  }

  /** node.branches.forEach(this::print). */
  function RenderBranches(o: ReporterOptions, t: seq<NodeRec>, top: NodeId, p: NodeId, bs: seq<NodeId>): seq<Line>
    requires WellFormed(t) && top < |t| && HasBranches(t, top) && p < |t|
    requires forall k | 0 <= k < |bs| :: p < bs[k] < |t| && Renderable(t, bs[k])
    decreases |t| - p, 0, |bs|
  {
    if |bs| == 0 then []
    else RenderBranches(o, t, top, p, bs[..|bs| - 1]) + RenderNode(o, t, top, bs[|bs| - 1])
  }

  /** print(): an optional blank line, then the first branch's subtree. */
  function Output(o: ReporterOptions, t: seq<NodeRec>, top: NodeId): seq<Line>
    requires WellFormed(t) && top < |t| && HasBranches(t, top) && Renderable(t, RootChild(t, top))
  {
    (if o.printBlankLineBetweenTests then [TextLine("")] else []) + RenderNode(o, t, top, RootChild(t, top))
  }

  /** The children of a renderable node are renderable, and lie after it in the table. */
  lemma ChildrenRenderable(t: seq<NodeRec>, n: NodeId)
    requires WellFormed(t) && n < |t| && Renderable(t, n)
    ensures forall k | 0 <= k < |t[n].branches| :: n < t[n].branches[k] < |t| && Renderable(t, t[n].branches[k])
  {
    WellFormedAt(t, n);
  }

  lemma RenderBranchesSnoc(o: ReporterOptions, t: seq<NodeRec>, top: NodeId, p: NodeId, bs: seq<NodeId>, k: nat)
    requires WellFormed(t) && top < |t| && HasBranches(t, top) && p < |t| && k < |bs|
    requires forall j | 0 <= j < |bs| :: p < bs[j] < |t| && Renderable(t, bs[j])
    ensures RenderBranches(o, t, top, p, bs[..k + 1])
            == RenderBranches(o, t, top, p, bs[..k]) + RenderNode(o, t, top, bs[k])
  {
    assert bs[..k + 1][..k] == bs[..k];
  }

  /** The output of print(node), prefixed by what was logged before it, in the order the method produces it. */
  lemma RenderNodeParts(o: ReporterOptions, t: seq<NodeRec>, top: NodeId, n: NodeId, before: seq<Line>)
    requires WellFormed(t) && top < |t| && HasBranches(t, top) && n < |t| && Renderable(t, n)
    requires forall k | 0 <= k < |t[n].branches| :: n < t[n].branches[k] < |t| && Renderable(t, t[n].branches[k])
    ensures before + RenderNode(o, t, top, n)
            == before + [ClassLineOf(t, top, n)] + EntriesLines(o, t, top, n, t[n].entries)
               + RenderBranches(o, t, top, n, t[n].branches)
  {
    WellFormedAt(t, n);
    var cl := [ClassLineOf(t, top, n)];
    var el := EntriesLines(o, t, top, n, t[n].entries);
    var rb := RenderBranches(o, t, top, n, t[n].branches);
    assert RenderNode(o, t, top, n) == cl + el + rb;
    LinesAssoc(before, cl, el);
    LinesAssoc(before + cl, el, rb);
    LinesAssoc(before, cl + el, rb);
  }

  /** The first line of the children's output is the first child's class line. */
  lemma {:induction false} RenderBranchesHead(o: ReporterOptions, t: seq<NodeRec>, top: NodeId, p: NodeId, bs: seq<NodeId>)
    requires WellFormed(t) && top < |t| && HasBranches(t, top) && p < |t| && |bs| > 0
    requires forall k | 0 <= k < |bs| :: p < bs[k] < |t| && Renderable(t, bs[k])
    ensures |RenderBranches(o, t, top, p, bs)| > 0
    ensures RenderBranches(o, t, top, p, bs)[0] == ClassLineOf(t, top, bs[0])
    decreases |bs|
  {
    var init := bs[..|bs| - 1];
    if |init| == 0 {
      assert RenderBranches(o, t, top, p, init) == [];
      assert RenderNode(o, t, top, bs[0])[0] == ClassLineOf(t, top, bs[0]);
    } else {
      RenderBranchesHead(o, t, top, p, init);
      assert init[0] == bs[0];
    }
  }

  /**
   * The layout of print(node): its class line, then exactly its results in
   * list order, none of which is a class line, then the first child's class
   * line when it has children; a leaf prints nothing after its results.
   */
  lemma RenderNodeLayout(o: ReporterOptions, t: seq<NodeRec>, top: NodeId, n: NodeId)
    requires WellFormed(t) && top < |t| && HasBranches(t, top) && n < |t| && Renderable(t, n)
    requires forall k | 0 <= k < |t[n].branches| :: n < t[n].branches[k] < |t| && Renderable(t, t[n].branches[k])
    ensures var r := RenderNode(o, t, top, n);
            var el := EntriesLines(o, t, top, n, t[n].entries);
            && 1 + |el| <= |r|
            && r[0] == ClassLineOf(t, top, n)
            && r[1..1 + |el|] == el
            && ClassLines(r[1..1 + |el|]) == []
            && (|t[n].branches| == 0 <==> |r| == 1 + |el|)
            && (|t[n].branches| > 0 ==> r[1 + |el|] == ClassLineOf(t, top, t[n].branches[0]))
  {
    WellFormedAt(t, n);
    var el := EntriesLines(o, t, top, n, t[n].entries);
    var rb := RenderBranches(o, t, top, n, t[n].branches);
    var r := RenderNode(o, t, top, n);
    assert r == [ClassLineOf(t, top, n)] + el + rb;
    assert r[1..1 + |el|] == el;
    EntriesHaveNoClassLine(o, t, top, n, t[n].entries);
    if |t[n].branches| > 0 {
      RenderBranchesHead(o, t, top, n, t[n].branches);
      assert r[1 + |el|] == rb[0];
    } else {
      assert rb == [];
    }
  }

  // -------------------------------------------------------------- pre-order

  /** The nodes of n's subtree in pre-order: n, then each child's subtree in list order. */
  function PreOrder(t: seq<NodeRec>, n: NodeId): (ids: seq<NodeId>)
    requires WellFormed(t) && n < |t|
    ensures |ids| > 0 && ids[0] == n
    ensures forall i | 0 <= i < |ids| :: n <= ids[i] < |t|
    decreases |t| - n, 1
  {
    WellFormedAt(t, n);
    [n] + PreOrderBranches(t, n, t[n].branches)
  }

  /** The pre-orders of the subtrees rooted at bs, one after another. */
  function PreOrderBranches(t: seq<NodeRec>, p: NodeId, bs: seq<NodeId>): (ids: seq<NodeId>)
    requires WellFormed(t) && p < |t|
    requires forall k | 0 <= k < |bs| :: p < bs[k] < |t|
    ensures forall i | 0 <= i < |ids| :: p < ids[i] < |t|
    decreases |t| - p, 0, |bs|
  {
    if |bs| == 0 then []
    else PreOrderBranches(t, p, bs[..|bs| - 1]) + PreOrder(t, bs[|bs| - 1])
  }
  /** An ancestor's ancestors are ancestors too. */
  lemma {:induction false} AncestorsTrans(t: seq<NodeRec>, x: NodeId, a: NodeId)
    requires WellFormed(t) && x < |t| && a < |t| && a in Ancestors(t, x)
    ensures forall b | b in Ancestors(t, a) :: b in Ancestors(t, x)
    decreases x
  {
    WellFormedAt(t, x);
    var q := t[x].parent.value;
    if a != q {
      AncestorsTrans(t, q, a);
    }
  }

  /** Every node of the pre-order of n other than n itself lies below n. */
  lemma {:induction false} PreOrderDescends(t: seq<NodeRec>, n: NodeId)
    requires WellFormed(t) && n < |t|
    ensures forall i | 1 <= i < |PreOrder(t, n)| :: n in Ancestors(t, PreOrder(t, n)[i])
    decreases |t| - n, 1
  {
    WellFormedAt(t, n);
    var pb := PreOrderBranches(t, n, t[n].branches);
    PreOrderBranchesDescend(t, n, t[n].branches);
    assert PreOrder(t, n) == [n] + pb;
  }

  /** Every node of the pre-orders of children of p lies below p. */
  lemma {:induction false} PreOrderBranchesDescend(t: seq<NodeRec>, p: NodeId, bs: seq<NodeId>)
    requires WellFormed(t) && p < |t|
    requires forall k | 0 <= k < |bs| :: p < bs[k] < |t| && t[bs[k]].parent == Some(p)
    ensures forall i | 0 <= i < |PreOrderBranches(t, p, bs)| :: p in Ancestors(t, PreOrderBranches(t, p, bs)[i])
    decreases |t| - p, 0, |bs|
  {
    if |bs| > 0 {
      var init := bs[..|bs| - 1];
      var last := bs[|bs| - 1];
      PreOrderBranchesDescend(t, p, init);
      PreOrderDescends(t, last);
      var a := PreOrderBranches(t, p, init);
      var b := PreOrder(t, last);
      assert PreOrderBranches(t, p, bs) == a + b;
      WellFormedAt(t, last);
      assert p in Ancestors(t, last);
      forall i | 0 <= i < |b| ensures p in Ancestors(t, b[i]) {
        if i > 0 {
          AncestorsTrans(t, b[i], last);
        }
      }
    }
  }


  /** The class lines among some output, in order. */
  function ClassLines(ls: seq<Line>): (cs: seq<Line>)
    ensures |cs| <= |ls|
    ensures forall i | 0 <= i < |cs| :: cs[i].ClassLine?
  {
    if |ls| == 0 then []
    else ClassLines(ls[..|ls| - 1]) + (if ls[|ls| - 1].ClassLine? then [ls[|ls| - 1]] else [])
  }

  lemma {:induction false} ClassLinesConcat(a: seq<Line>, b: seq<Line>)
    ensures ClassLines(a + b) == ClassLines(a) + ClassLines(b)
    decreases |b|
  {
    if |b| > 0 {
      var c := a + b;
      var b' := b[..|b| - 1];
      var x := b[|b| - 1];
      var tail := if x.ClassLine? then [x] else [];
      assert c[..|c| - 1] == a + b' && c[|c| - 1] == x;
      assert ClassLines(c) == ClassLines(a + b') + tail;
      ClassLinesConcat(a, b');
      assert ClassLines(b) == ClassLines(b') + tail;
      assert ClassLines(a) + (ClassLines(b') + tail) == (ClassLines(a) + ClassLines(b')) + tail;
    } else {
      assert a + b == a;
    }
  }

  lemma {:induction false} NoClassLines(ls: seq<Line>)
    requires forall i | 0 <= i < |ls| :: !ls[i].ClassLine?
    ensures ClassLines(ls) == []
    decreases |ls|
  {
    if |ls| > 0 {
      NoClassLines(ls[..|ls| - 1]);
    }
  }

  /** The results of a node print no class line. */
  lemma {:induction false} EntriesHaveNoClassLine(o: ReporterOptions, t: seq<NodeRec>, top: NodeId, n: NodeId, es: seq<Report.Entry>)
    requires WellFormed(t) && top < |t| && HasBranches(t, top) && n < |t|
    ensures ClassLines(EntriesLines(o, t, top, n, es)) == []
    decreases |es|
  {
    if |es| > 0 {
      var init := es[..|es| - 1];
      EntriesHaveNoClassLine(o, t, top, n, init);
      var el := EntryLines(o, t, top, n, es[|es| - 1]);
      EntryHasNoClassLine(o, t, top, n, es[|es| - 1]);
      ClassLinesConcat(EntriesLines(o, t, top, n, init), el);
    }
  }

  lemma EntryHasNoClassLine(o: ReporterOptions, t: seq<NodeRec>, top: NodeId, n: NodeId, e: Report.Entry)
    requires WellFormed(t) && top < |t| && HasBranches(t, top) && n < |t|
    ensures ClassLines(EntryLines(o, t, top, n, e)) == []
  {
    var result := ResultPart(o, t, top, n, e);
    NoClassLines(result);
    DetailsHaveNoClassLine(o, e);
    ClassLinesConcat(result, DetailLines(o, e));
  }

  lemma DetailsHaveNoClassLine(o: ReporterOptions, e: Report.Entry)
    ensures ClassLines(DetailLines(o, e)) == []
  {
    var ls := DetailLines(o, e);
    forall i | 0 <= i < |ls| ensures !ls[i].ClassLine? {
    }
    NoClassLines(ls);
  }

  /** cls holds the class lines of the nodes ids, one each, in the same order. */
  ghost predicate ClassLinesFor(t: seq<NodeRec>, top: NodeId, cls: seq<Line>, ids: seq<NodeId>)
    requires WellFormed(t) && top < |t| && HasBranches(t, top)
  {
    && |cls| == |ids|
    && forall i | 0 <= i < |ids| :: IsClassLineOf(t, top, cls[i], ids[i])
  }

  /** l is the class line printClass prints for node id. */
  ghost predicate IsClassLineOf(t: seq<NodeRec>, top: NodeId, l: Line, id: NodeId)
    requires WellFormed(t) && top < |t| && HasBranches(t, top)
  {
    id < |t| && ClassLineOk(t, id) && l == ClassLineOf(t, top, id)
  }

  lemma ClassLinesForConcat(t: seq<NodeRec>, top: NodeId, a: seq<Line>, x: seq<NodeId>, b: seq<Line>, y: seq<NodeId>)
    requires WellFormed(t) && top < |t| && HasBranches(t, top)
    requires ClassLinesFor(t, top, a, x) && ClassLinesFor(t, top, b, y)
    ensures ClassLinesFor(t, top, a + b, x + y)
  {
    ClassLinesForFront(t, top, a, x, b, y);
    ClassLinesForBack(t, top, a, x, b, y);
  }

  lemma ClassLinesForFront(t: seq<NodeRec>, top: NodeId, a: seq<Line>, x: seq<NodeId>, b: seq<Line>, y: seq<NodeId>)
    requires WellFormed(t) && top < |t| && HasBranches(t, top)
    requires ClassLinesFor(t, top, a, x) && |b| == |y|
    ensures forall i | 0 <= i < |x| :: IsClassLineOf(t, top, (a + b)[i], (x + y)[i])
  {
    forall i | 0 <= i < |x|
      ensures IsClassLineOf(t, top, (a + b)[i], (x + y)[i])
    {
      assert (x + y)[i] == x[i] && (a + b)[i] == a[i];
    }
  }

  lemma ClassLinesForBack(t: seq<NodeRec>, top: NodeId, a: seq<Line>, x: seq<NodeId>, b: seq<Line>, y: seq<NodeId>)
    requires WellFormed(t) && top < |t| && HasBranches(t, top)
    requires |a| == |x| && ClassLinesFor(t, top, b, y)
    ensures forall i | |x| <= i < |x| + |y| :: IsClassLineOf(t, top, (a + b)[i], (x + y)[i])
  {
    forall i | |x| <= i < |x| + |y|
      ensures IsClassLineOf(t, top, (a + b)[i], (x + y)[i])
    {
      assert (x + y)[i] == y[i - |x|] && (a + b)[i] == b[i - |x|];
    }
  }

  /** print(node) prints one class line per node of the subtree, in pre-order. */
  lemma {:induction false} RenderPreOrder(o: ReporterOptions, t: seq<NodeRec>, top: NodeId, n: NodeId)
    requires WellFormed(t) && top < |t| && HasBranches(t, top) && n < |t| && Renderable(t, n)
    ensures ClassLinesFor(t, top, ClassLines(RenderNode(o, t, top, n)), PreOrder(t, n))
    decreases |t| - n, 1
  {
    ChildrenRenderable(t, n);
    WellFormedAt(t, n);
    var cl := [ClassLineOf(t, top, n)];
    var el := EntriesLines(o, t, top, n, t[n].entries);
    var rb := RenderBranches(o, t, top, n, t[n].branches);
    assert RenderNode(o, t, top, n) == cl + el + rb;
    ClassLinesConcat(cl + el, rb);
    ClassLinesConcat(cl, el);
    EntriesHaveNoClassLine(o, t, top, n, t[n].entries);
    assert cl[..0] == [];
    assert ClassLines(cl) == cl;
    assert ClassLinesFor(t, top, cl, [n]);
    RenderBranchesPreOrder(o, t, top, n, t[n].branches);
    ClassLinesForConcat(t, top, cl, [n], ClassLines(rb), PreOrderBranches(t, n, t[n].branches));
    assert ClassLines(cl + el) == cl;
  }

  lemma {:induction false} RenderBranchesPreOrder(o: ReporterOptions, t: seq<NodeRec>, top: NodeId, p: NodeId, bs: seq<NodeId>)
    requires WellFormed(t) && top < |t| && HasBranches(t, top) && p < |t|
    requires forall k | 0 <= k < |bs| :: p < bs[k] < |t| && Renderable(t, bs[k])
    ensures ClassLinesFor(t, top, ClassLines(RenderBranches(o, t, top, p, bs)), PreOrderBranches(t, p, bs))
    decreases |t| - p, 0, |bs|
  {
    if |bs| > 0 {
      var init := bs[..|bs| - 1];
      var last := bs[|bs| - 1];
      RenderBranchesPreOrder(o, t, top, p, init);
      RenderPreOrder(o, t, top, last);
      ClassLinesConcat(RenderBranches(o, t, top, p, init), RenderNode(o, t, top, last));
      ClassLinesForConcat(t, top, ClassLines(RenderBranches(o, t, top, p, init)), PreOrderBranches(t, p, init),
                          ClassLines(RenderNode(o, t, top, last)), PreOrder(t, last));
    }
  }

  /** print() prints one class line per node of the first branch's subtree, in pre-order. */
  lemma OutputPreOrder(o: ReporterOptions, t: seq<NodeRec>, top: NodeId)
    requires WellFormed(t) && top < |t| && HasBranches(t, top) && Renderable(t, RootChild(t, top))
    ensures ClassLinesFor(t, top, ClassLines(Output(o, t, top)), PreOrder(t, RootChild(t, top)))
  {
    var rc := RootChild(t, top);
    var blank := if o.printBlankLineBetweenTests then [TextLine("")] else [];
    var rendered := RenderNode(o, t, top, rc);
    assert Output(o, t, top) == blank + rendered;
    NoClassLines(blank);
    ClassLinesConcat(blank, rendered);
    assert ClassLines(Output(o, t, top)) == ClassLines(rendered);
    RenderPreOrder(o, t, top, rc);
  }

  lemma LinesAssoc(a: seq<Line>, b: seq<Line>, c: seq<Line>)
    ensures (a + b) + c == a + (b + c)
  {
  }

  // ----------------------------------------------------------------- class

  class ActualTreePrinter {
    const tree: Tree
    const top: NodeId
    const options: ReporterOptions
    var log: seq<Line>

    ghost predicate Ready()
      reads tree
    {
      tree.Valid() && top < |tree.nodes| && HasBranches(tree.nodes, top)
    }

    constructor (tree: Tree, top: NodeId, options: ReporterOptions)
      ensures this.tree == tree && this.top == top && this.options == options && log == []
    {
      this.tree := tree;
      this.top := top;
      this.options := options;
      log := [];
    }

    /** print(): render the first branch, then Node.clearTree(). */
    method Print()
      requires Ready() && Renderable(tree.nodes, RootChild(tree.nodes, top))
      modifies this, tree
      ensures tree.Valid() && tree.nodes == Clear(old(tree.nodes))
      ensures log == old(log) + Output(options, old(tree.nodes), top)
    {
      ghost var t0 := tree.nodes;
      var rootChild := RootChild(tree.nodes, top);
      ghost var blank := if options.printBlankLineBetweenTests then [TextLine("")] else [];
      if options.printBlankLineBetweenTests {
        log := log + [TextLine("")];
      }
      assert log == old(log) + blank;
      PrintNode(rootChild);
      assert log == old(log) + Output(options, t0, top) by {
        LinesAssoc(old(log), blank, RenderNode(options, t0, top, rootChild));
      }
      tree.ClearTree();
    }

    /** print(Node): the class line, the results in list order, then the children in list order. */
    method PrintNode(n: NodeId)
      requires Ready() && n < |tree.nodes| && Renderable(tree.nodes, n)
      modifies this
      ensures log == old(log) + RenderNode(options, tree.nodes, top, n)
      decreases |tree.nodes| - n, 1
    {
      ChildrenRenderable(tree.nodes, n);
      PrintClass(n);
      PrintEntries(n);
      PrintBranches(n);
      RenderNodeParts(options, tree.nodes, top, n, old(log));
    }

    /** node.wrappedReportEntries.forEach(i -> printTestFormated(node, i)). */
    method PrintEntries(n: NodeId)
      requires Ready() && n < |tree.nodes|
      modifies this
      ensures log == old(log) + EntriesLines(options, tree.nodes, top, n, tree.nodes[n].entries)
    {
      var es := tree.nodes[n].entries;
      var i := 0;
      while i < |es|
        invariant 0 <= i <= |es|
        invariant log == old(log) + EntriesLines(options, tree.nodes, top, n, es[..i])
      {
        PrintTestFormated(n, es[i]);
        assert es[..i + 1][..i] == es[..i];
        LinesAssoc(old(log), EntriesLines(options, tree.nodes, top, n, es[..i]), EntryLines(options, tree.nodes, top, n, es[i]));
        i := i + 1;
      }
      assert es[..i] == es;
    }

    /** node.branches.forEach(this::print). */
    method PrintBranches(n: NodeId)
      requires Ready() && n < |tree.nodes|
      requires forall k | 0 <= k < |tree.nodes[n].branches| ::
                 n < tree.nodes[n].branches[k] < |tree.nodes| && Renderable(tree.nodes, tree.nodes[n].branches[k])
      modifies this
      ensures log == old(log) + RenderBranches(options, tree.nodes, top, n, tree.nodes[n].branches)
      decreases |tree.nodes| - n, 0
    {
      ghost var t := tree.nodes;
      var bs := tree.nodes[n].branches;
      var k := 0;
      while k < |bs|
        invariant 0 <= k <= |bs| && tree.nodes == t
        invariant log == old(log) + RenderBranches(options, t, top, n, bs[..k])
      {
        ghost var done := RenderBranches(options, t, top, n, bs[..k]);
        PrintNode(bs[k]);
        assert log == (old(log) + done) + RenderNode(options, t, top, bs[k]);
        RenderBranchesSnoc(options, t, top, n, bs, k);
        LinesAssoc(old(log), done, RenderNode(options, t, top, bs[k]));
        k := k + 1;
      }
      assert bs[..k] == bs;
    }

    /** printClass(node): the prefix is built glyph by glyph, as the MessageBuilder is. */
    method PrintClass(n: NodeId)
      requires Ready() && n < |tree.nodes| && ClassLineOk(tree.nodes, n)
      modifies this
      ensures log == old(log) + [ClassLineOf(tree.nodes, top, n)]
    {
      var builder := GetClassPrefix(n);
      var name := CleanReportName(tree.nodes, n);
      log := log + [ClassLine(builder, name, tree.nodes[n].classEntry.value.elapsed)];
    }

    /** The glyph-by-glyph prefix printClass builds before the class name. */
    method GetClassPrefix(n: NodeId) returns (builder: seq<Glyph>)
      requires Ready() && n < |tree.nodes|
      ensures builder == ClassPrefix(tree.nodes, top, n)
    {
      var t := tree.nodes;
      var last := IsLastMissingBranch(t, top, n);
      builder := [];
      var d: int := t[n].depth;
      if d > 1 {
        if d > 2 {
          builder := [Lead(last)];
          var i := 0;
          while i <= d - 4
            invariant 0 <= i <= if d >= 4 then d - 3 else 0
            invariant builder == [Lead(last)] + Blanks(i)
          {
            builder := builder + [Blank];
            i := i + 1;
          }
          builder := builder + [End];
          assert builder == [Lead(last)] + Blanks(d - 3) + [End];
        } else {
          builder := [if last then End else Entry];
        }
      }
      builder := builder + [if HasBranches(t, n) then Down else Dash];
    }

    /** getTestPrefix(node, testResult): built glyph by glyph. */
    method GetTestPrefix(n: NodeId, e: Report.Entry) returns (builder: seq<Glyph>)
      requires Ready() && n < |tree.nodes|
      ensures builder == TestPrefix(tree.nodes, top, n, e)
    {
      var t := tree.nodes;
      builder := [Lead(IsLastMissingBranch(t, top, n))];
      var d: int := t[n].depth;
      if d > 1 {
        var i := 0;
        while i <= d - 3
          invariant 0 <= i <= d - 2
          invariant builder == [Lead(IsLastMissingBranch(t, top, n))] + Blanks(i)
        {
          builder := builder + [Blank];
          i := i + 1;
        }
        var q := ParentOf(t, n);
        builder := builder + [if HasBranches(t, q) && HasBranches(t, n) then Pipe else Blank];
      }
      builder := builder + [if IsLastTestToBeEval(t[n].entries, e) then Entry else End];
    }

    /** printTestFormated(node, testResult). */
    method PrintTestFormated(n: NodeId, e: Report.Entry)
      requires Ready() && n < |tree.nodes|
      modifies this
      ensures log == old(log) + EntryLines(options, tree.nodes, top, n, e)
    {
      var result: seq<Line> := [];
      if Report.IsErrorOrFailure(e) {
        var prefix := GetTestPrefix(n, e);
        result := [ResultLine(prefix, Failed, e.reportName, "", e.elapsed)];
      } else if Report.IsSkipped(e) {
        var prefix := GetTestPrefix(n, e);
        result := [ResultLine(prefix, Skipped, SkippedReport(e), SkippedMessage(e), e.elapsed)];
      } else if !options.hideResultsOnSuccess && Report.IsSucceeded(e) {
        var prefix := GetTestPrefix(n, e);
        result := [ResultLine(prefix, Successful, e.reportName, "", e.elapsed)];
      }
      assert result + DetailLines(options, e) == EntryLines(options, tree.nodes, top, n, e);
      log := log + (result + DetailLines(options, e));
    }
  }
}
