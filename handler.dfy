/**
 * The nested-family aggregator (TestReportHandler.java).
 *
 * A "starting" event (prepare) inserts the class's nested-class path into the
 * shared tree and, when the class is nested, registers its name under its
 * source root name. A "completed" event (print) attaches the test results to
 * their nodes, sets the class summary, and either hands the class's node to
 * the printer at once (a class never registered) or buffers the summary under
 * its root until as many summaries as registered names have arrived; then the
 * node is printed and the family is evicted from the three registries.
 *
 * The pure functions below describe one event each; the classes at the end
 * carry the same steps out on the shared state in place and are proved equal
 * to them.
 */
module Handler {
  import opened Wrappers
  import opened Report
  import opened NodeTree
  import ClassPath

  // ------------------------------------------------------------ nested tests

  /** hasNestedTests(ReportEntry): the source name contains '$' (character 36). */
  predicate IsNestedEntry(e: Entry) {
    ClassPath.HasDollar(e.sourceName)
  }

  /** hasNestedTests(TestSetStats): some result of the class comes from a nested class. */
  function AnyNested(es: seq<Entry>): (b: bool)
    ensures b <==> exists i | 0 <= i < |es| :: IsNestedEntry(es[i])
  {
    if |es| == 0 then false
    else
      var rest := AnyNested(es[1..]);
      assert forall i | 1 <= i < |es| :: es[i] == es[1..][i - 1];
      IsNestedEntry(es[0]) || rest
  }

  /** hasNestedTests(): decided by the stats when there are any, by the report otherwise. */
  predicate HasNestedTests(report: Entry, stats: Option<seq<Entry>>) {
    match stats
    case None => IsNestedEntry(report)
    case Some(es) => AnyNested(es)
  }

  /** A nested class's own report has a path of more than one segment. */
  lemma NestedReportPath(report: Entry)
    ensures HasNestedTests(report, None) <==> |ClassPath.GetTestClassPath(report.sourceName)| > 1
  {
    ClassPath.NestedIffManySegments(report.sourceName);
  }

  // -------------------------------------------------------------- registries

  /** The three static registries, keyed by source root name. */
  datatype Registry = Registry(
    classNames: map<string, set<string>>,
    classEntries: map<string, seq<Entry>>,
    testEntries: map<string, seq<Entry>>)

  const EmptyRegistry := Registry(map[], map[], map[])

  /**
   * What the registries keep between events: a family's name set holds its
   * root, buffers exist only for registered families, and a family is never
   * left holding as many summaries as names (it would have been printed).
   */
  ghost predicate RegistryOk(r: Registry) {
    && (forall k | k in r.classNames :: k in r.classNames[k])
    && r.classEntries.Keys <= r.classNames.Keys
    && r.testEntries.Keys <= r.classNames.Keys
    && (forall k | k in r.classEntries :: |r.classEntries[k]| < |r.classNames[k]|)
  }

  /** `map.computeIfAbsent(k, ArrayList::new).addAll(xs)`. */
  function AppendAt(m: map<string, seq<Entry>>, k: string, xs: seq<Entry>): (m': map<string, seq<Entry>>)
    ensures m'.Keys == m.Keys + {k}
    ensures m'[k] == (if k in m then m[k] else []) + xs
    ensures forall j | j in m && j != k :: m'[j] == m[j]
  {
    m[k := (if k in m then m[k] else []) + xs]
  }

  /**
   * markClassNamesForNestedTests: a new family starts with its root's own
   * name; the report's source name is then added.
   */
  function MarkClassNames(r: Registry, root: string, src: string): (r': Registry)
    ensures r'.classNames.Keys == r.classNames.Keys + {root}
    ensures src in r'.classNames[root]
    ensures root !in r.classNames ==> r'.classNames[root] == {root, src}
    ensures root in r.classNames ==> r'.classNames[root] == r.classNames[root] + {src}
    ensures forall k | k in r.classNames && k != root :: r'.classNames[k] == r.classNames[k]
    ensures r'.classEntries == r.classEntries && r'.testEntries == r.testEntries
  {
    var names := if root in r.classNames then r.classNames[root] else {root};
    r.(classNames := r.classNames[root := names + {src}])
  }

  /** cleanEntries(): the family leaves all three registries; the others stay. */
  function Evict(r: Registry, root: string): (r': Registry)
    ensures root !in r'.classNames && root !in r'.classEntries && root !in r'.testEntries
    ensures forall k | k != root ::
              && (k in r'.classNames <==> k in r.classNames)
              && (k in r'.classEntries <==> k in r.classEntries)
              && (k in r'.testEntries <==> k in r.testEntries)
    ensures forall k | k in r'.classNames :: r'.classNames[k] == r.classNames[k]
    ensures forall k | k in r'.classEntries :: r'.classEntries[k] == r.classEntries[k]
    ensures forall k | k in r'.testEntries :: r'.testEntries[k] == r.testEntries[k]
  {
    Registry(r.classNames - {root}, r.classEntries - {root}, r.testEntries - {root})
  }

  // ---------------------------------------------------------------- prepare

  /** The tree path of a report: its source name split on '$'. */
  function PathOf(e: Entry): (path: seq<string>)
    ensures |path| > 0
  {
    ClassPath.GetTestClassPath(e.sourceName)
  }

  /** The family key of a report: the first segment of its path. */
  function RootOf(e: Entry): string {
    ClassPath.SourceRootName(e.sourceName)
  }

  /** The registry half of prepare(): a nested report is registered under its root. */
  function Register(r: Registry, report: Entry, stats: Option<seq<Entry>>): Registry {
    if HasNestedTests(report, stats) then MarkClassNames(r, RootOf(report), report.sourceName) else r
  }

  /** prepare(): insert the report's path; register it when it is nested. */
  function Prepared(t: seq<NodeRec>, r: Registry, report: Entry, stats: Option<seq<Entry>>): (res: (seq<NodeRec>, Registry))
    requires WellFormed(t)
    ensures WellFormed(res.0)
  {
    (Insert(t, RootId, PathOf(report)).0, Register(r, report, stats))
  }

  // ------------------------------------------------------------------ print

  /** How a completion event ends. */
  datatype Outcome =
    | Printed(node: NodeId)           // treePrinter.printTests(node) was called
    | Held                            // summary buffered, family not complete yet
    | MissingNode(path: seq<string>)  // Optional.get() on an absent node
    | NullStats                       // a nested report without stats dereferences null

  /**
   * The stats loop of print(): each result, in order, is added to the node at
   * its own path; the first result whose node is missing stops the loop, the
   * earlier ones staying attached.
   */
  function AttachEntries(t: seq<NodeRec>, es: seq<Entry>): (res: (seq<NodeRec>, Option<seq<string>>))
    requires WellFormed(t)
    ensures WellFormed(res.0) && SameShape(t, res.0)
    decreases |es|
  {
    if |es| == 0 then (t, None)
    else
      match Lookup(t, RootId, PathOf(es[0]))
      case None => (t, Some(PathOf(es[0])))
      case Some(x) =>
        var u := AppendEntry(t, x, es[0]);
        var res := AttachEntries(u, es[1..]);
        SameShapeTrans(t, u, res.0);
        res
  }

  /** The results among es whose path leads to node x, in order. */
  function EntriesAt(t: seq<NodeRec>, es: seq<Entry>, x: NodeId): (r: seq<Entry>)
    requires WellFormed(t)
    ensures |r| <= |es|
  {
    if |es| == 0 then []
    else (if Lookup(t, RootId, PathOf(es[0])) == Some(x) then [es[0]] else []) + EntriesAt(t, es[1..], x)
  }

  /** The stats loop runs to the end exactly when every result's node exists. */
  lemma {:induction false} AttachEntriesComplete(t: seq<NodeRec>, es: seq<Entry>)
    requires WellFormed(t)
    ensures AttachEntries(t, es).1.None? <==> forall j | 0 <= j < |es| :: Lookup(t, RootId, PathOf(es[j])).Some?
    decreases |es|
  {
    if |es| > 0 {
      match Lookup(t, RootId, PathOf(es[0]))
      case None =>
      case Some(x) =>
        var u := AppendEntry(t, x, es[0]);
        var rest := es[1..];
        AttachEntriesComplete(u, rest);
        forall j | 0 <= j < |rest|
          ensures Lookup(u, RootId, PathOf(rest[j])) == Lookup(t, RootId, PathOf(es[j + 1]))
        {
          assert rest[j] == es[j + 1];
          SameShapeLookup(t, u, RootId, PathOf(rest[j]));
        }
    }
  }

  /** Each node receives, after what it had, exactly the results whose path leads to it, in order. */
  lemma {:induction false} AttachEntriesAppends(t: seq<NodeRec>, es: seq<Entry>)
    requires WellFormed(t) && AttachEntries(t, es).1.None?
    ensures forall i | 0 <= i < |t| :: AttachEntries(t, es).0[i].entries == t[i].entries + EntriesAt(t, es, i)
    decreases |es|
  {
    if |es| > 0 {
      var x := Lookup(t, RootId, PathOf(es[0])).value;
      var u := AppendEntry(t, x, es[0]);
      var rest := es[1..];
      var res := AttachEntries(u, rest);
      assert AttachEntries(t, es) == res;
      AttachEntriesAppends(u, rest);
      EntriesAtSameShape(t, u, rest);
      forall i | 0 <= i < |t|
        ensures res.0[i].entries == t[i].entries + EntriesAt(t, es, i)
      {
        var head := if i == x then [es[0]] else [];
        var later := EntriesAt(t, rest, i);
        assert u[i].entries == t[i].entries + head;
        assert EntriesAt(t, es, i) == head + later;
        assert res.0[i].entries == u[i].entries + later;
        ConcatAssoc(t[i].entries, head, later);
      }
    }
  }

  lemma ConcatAssoc(a: seq<Entry>, b: seq<Entry>, c: seq<Entry>)
    ensures (a + b) + c == a + (b + c)
  {
  }

  lemma {:induction false} EntriesAtSameShape(t: seq<NodeRec>, u: seq<NodeRec>, es: seq<Entry>)
    requires WellFormed(t) && WellFormed(u) && SameShape(t, u)
    ensures forall x :: EntriesAt(u, es, x) == EntriesAt(t, es, x)
    decreases |es|
  {
    if |es| > 0 {
      SameShapeLookup(t, u, RootId, PathOf(es[0]));
      EntriesAtSameShape(t, u, es[1..]);
    }
  }

  /**
   * The registry half of print(), once the class node x has its summary:
   * print at once for an unregistered root; otherwise buffer the results (when
   * nested) and the summary, and print and evict when the family is complete.
   */
  function Settle(r: Registry, report: Entry, stats: Option<seq<Entry>>, x: NodeId): (res: (Registry, Outcome))
  {
    var root := RootOf(report);
    if root !in r.classNames then (r, Printed(x))
    else if HasNestedTests(report, stats) && stats.None? then
      (r.(testEntries := AppendAt(r.testEntries, root, [])), NullStats)
    else
      var r1 := if HasNestedTests(report, stats) then r.(testEntries := AppendAt(r.testEntries, root, stats.value)) else r;
      var r2 := r1.(classEntries := AppendAt(r1.classEntries, root, [report]));
      if |r2.classEntries[root]| == |r2.classNames[root]| then (Evict(r2, root), Printed(x))
      else (r2, Held)
  }

  /**
   * print(treePrinter): attach the stats, set the class summary, then settle
   * the registries.
   */
  function Completion(t: seq<NodeRec>, r: Registry, report: Entry, stats: Option<seq<Entry>>)
    : (res: (seq<NodeRec>, Registry, Outcome))
    requires WellFormed(t)
    ensures WellFormed(res.0) && SameShape(t, res.0)
  {
    var a := if stats.Some? then AttachEntries(t, stats.value) else (t, None);
    if a.1.Some? then (a.0, r, MissingNode(a.1.value))
    else
      match Lookup(a.0, RootId, PathOf(report))
      case None => (a.0, r, MissingNode(PathOf(report)))
      case Some(x) =>
        var u := SetClassEntry(a.0, x, report);
        SameShapeTrans(t, a.0, u);
        var s := Settle(r, report, stats, x);
        (u, s.0, s.1)
  }

  // -------------------------------------------------------------- properties

  /** The number of class summaries buffered for a family. */
  function Count(r: Registry, root: string): nat {
    if root in r.classEntries then |r.classEntries[root]| else 0
  }

  /** Every node a completion needs is in the tree: the report's and those of its results. */
  ghost predicate NodesExist(t: seq<NodeRec>, report: Entry, stats: Option<seq<Entry>>)
    requires WellFormed(t)
  {
    && Lookup(t, RootId, PathOf(report)).Some?
    && (stats.Some? ==> forall j | 0 <= j < |stats.value| :: Lookup(t, RootId, PathOf(stats.value[j])).Some?)
  }

  lemma NodesExistSameShape(t: seq<NodeRec>, u: seq<NodeRec>, report: Entry, stats: Option<seq<Entry>>)
    requires WellFormed(t) && WellFormed(u) && SameShape(t, u) && NodesExist(t, report, stats)
    ensures NodesExist(u, report, stats)
    ensures Lookup(u, RootId, PathOf(report)) == Lookup(t, RootId, PathOf(report))
  {
    SameShapeLookup(t, u, RootId, PathOf(report));
    if stats.Some? {
      forall j | 0 <= j < |stats.value|
        ensures Lookup(u, RootId, PathOf(stats.value[j])).Some?
      {
        SameShapeLookup(t, u, RootId, PathOf(stats.value[j]));
      }
    }
  }

  /**
   * When every node exists, print() attaches all results, gives the report's
   * node its class summary and settles the registries for that node.
   */
  lemma CompletionFound(t: seq<NodeRec>, r: Registry, report: Entry, stats: Option<seq<Entry>>)
    requires WellFormed(t) && NodesExist(t, report, stats)
    ensures var res := Completion(t, r, report, stats);
            var x := Lookup(t, RootId, PathOf(report)).value;
            && x < |res.0| && res.0[x].classEntry == Some(report)
            && (res.1, res.2) == Settle(r, report, stats, x)
    ensures var x := Lookup(t, RootId, PathOf(report)).value;
            var a := if stats.Some? then AttachEntries(t, stats.value).0 else t;
            x < |a| && Completion(t, r, report, stats).0 == SetClassEntry(a, x, report)
  {
    if stats.Some? {
      AttachEntriesComplete(t, stats.value);
      var a := AttachEntries(t, stats.value);
      SameShapeLookup(t, a.0, RootId, PathOf(report));
    }
  }

  /**
   * prepare() leaves the report's node in the tree, named after the last
   * segment of its source name; a nested report is registered under its
   * source root name, whose name set then holds the root and the report's
   * source name; any other report leaves the registries alone.
   */
  lemma PreparedRegisters(t: seq<NodeRec>, r: Registry, report: Entry, stats: Option<seq<Entry>>)
    requires WellFormed(t)
    ensures var res := Prepared(t, r, report, stats);
            var path := PathOf(report);
            && res.0 == Insert(t, RootId, path).0
            && Lookup(res.0, RootId, path).Some?
            && res.0[Lookup(res.0, RootId, path).value].name == path[|path| - 1]
    ensures var res := Prepared(t, r, report, stats);
            HasNestedTests(report, stats) ==>
              && RootOf(report) in res.1.classNames
              && report.sourceName in res.1.classNames[RootOf(report)]
              && (RegistryOk(r) ==> RootOf(report) in res.1.classNames[RootOf(report)])
    ensures !HasNestedTests(report, stats) ==> Prepared(t, r, report, stats).1 == r
  {
    InsertEnd(t, RootId, PathOf(report));
  }

  /** prepare() keeps the registries consistent. */
  lemma RegisterKeepsOk(r: Registry, report: Entry, stats: Option<seq<Entry>>)
    requires RegistryOk(r)
    ensures RegistryOk(Register(r, report, stats))
  {
    var r' := Register(r, report, stats);
    if HasNestedTests(report, stats) {
      var root := RootOf(report);
      var src := report.sourceName;
      assert r' == MarkClassNames(r, root, src);
      forall k | k in r'.classNames
        ensures k in r'.classNames[k]
      {
        if k != root { assert r'.classNames[k] == r.classNames[k]; }
      }
      forall k | k in r'.classEntries
        ensures |r'.classEntries[k]| < |r'.classNames[k]|
      {
        var names := r.classNames[k];
        if k == root {
          assert r'.classNames[k] == names + {src};
          if src in names {
            assert names + {src} == names;
          }
        } else {
          assert r'.classNames[k] == names;
        }
      }
    }
  }

  /** An unregistered family prints the node at once and leaves the registries alone. */
  lemma SettleUnregistered(r: Registry, report: Entry, stats: Option<seq<Entry>>, x: NodeId)
    requires RootOf(report) !in r.classNames
    ensures Settle(r, report, stats, x) == (r, Printed(x))
  {
  }

  /**
   * A registered family buffers one more class summary (and the results, when
   * they are nested). It prints exactly when the summaries then number as many
   * as the family's names, and the family then leaves all three registries;
   * otherwise nothing is printed and the names stay.
   */
  lemma SettleRegistered(r: Registry, report: Entry, stats: Option<seq<Entry>>, x: NodeId)
    requires RegistryOk(r) && RootOf(report) in r.classNames
    requires !(stats.None? && IsNestedEntry(report))
    ensures var root := RootOf(report);
            Count(r, root) + 1 <= |r.classNames[root]|
    ensures var res := Settle(r, report, stats, x);
            var root := RootOf(report);
            Count(r, root) + 1 == |r.classNames[root]| ==>
              && res.1 == Printed(x)
              && root !in res.0.classNames && root !in res.0.classEntries && root !in res.0.testEntries
    ensures var res := Settle(r, report, stats, x);
            var root := RootOf(report);
            Count(r, root) + 1 < |r.classNames[root]| ==>
              && res.1 == Held
              && res.0.classNames == r.classNames
              && Count(res.0, root) == Count(r, root) + 1
              && res.0.classEntries[root] == (if root in r.classEntries then r.classEntries[root] else []) + [report]
              && (HasNestedTests(report, stats) ==>
                    res.0.testEntries[root] == (if root in r.testEntries then r.testEntries[root] else []) + stats.value)
              && (!HasNestedTests(report, stats) ==> KeptAt(r.testEntries, res.0.testEntries, root))
  {
  }

  /**
   * A nested report completed without stats fails on the null stats, after
   * computeIfAbsent has left the family's result buffer as it was, or
   * created it empty.
   */
  lemma SettleNullStats(r: Registry, report: Entry, x: NodeId)
    requires RootOf(report) in r.classNames && IsNestedEntry(report)
    ensures var res := Settle(r, report, None, x);
            var root := RootOf(report);
            && res.1 == NullStats
            && res.0.classEntries == r.classEntries && res.0.classNames == r.classNames
            && root in res.0.testEntries
            && res.0.testEntries[root] == (if root in r.testEntries then r.testEntries[root] else [])
  {
  }

  /** Key k is in m' exactly when it is in m, and then maps to the same value. */
  ghost predicate KeptAt<V>(m: map<string, V>, m': map<string, V>, k: string) {
    && (k in m' <==> k in m)
    && (k in m ==> m'[k] == m[k])
  }

  /**
   * The registries are shared by every handler, and a completion touches
   * only its own family: any other family k keeps its names, summaries and
   * results in all three maps.
   */
  lemma SettleOtherFamilies(r: Registry, report: Entry, stats: Option<seq<Entry>>, x: NodeId, k: string)
    requires k != RootOf(report)
    ensures var r' := Settle(r, report, stats, x).0;
            && KeptAt(r.classNames, r'.classNames, k)
            && KeptAt(r.classEntries, r'.classEntries, k)
            && KeptAt(r.testEntries, r'.testEntries, k)
  {
    var root := RootOf(report);
    var nested := HasNestedTests(report, stats);
    if root in r.classNames && !(nested && stats.None?) {
      var r1 := if nested then r.(testEntries := AppendAt(r.testEntries, root, stats.value)) else r;
      var r2 := r1.(classEntries := AppendAt(r1.classEntries, root, [report]));
      assert KeptAt(r.testEntries, r2.testEntries, k);
      assert KeptAt(r.classEntries, r2.classEntries, k);
      assert Settle(r, report, stats, x).0 == if |r2.classEntries[root]| == |r2.classNames[root]| then Evict(r2, root) else r2;
    }
  }


  /**
   * A completion whose class node is missing fails and leaves the registries
   * as they were. The stats results are attached first, so the tree keeps
   * those that were attached, and the failing path is the first missing
   * result's, or the report's own when every result found its node. Without
   * stats nothing changes at all.
   */
  lemma CompletionMissing(t: seq<NodeRec>, r: Registry, report: Entry, stats: Option<seq<Entry>>)
    requires WellFormed(t) && Lookup(t, RootId, PathOf(report)).None?
    ensures var a := if stats.Some? then AttachEntries(t, stats.value) else (t, None);
            var c := Completion(t, r, report, stats);
            && c.0 == a.0 && c.1 == r
            && c.2 == MissingNode(if a.1.Some? then a.1.value else PathOf(report))
    ensures stats.None? ==> Completion(t, r, report, stats) == (t, r, MissingNode(PathOf(report)))
  {
    if stats.Some? {
      SameShapeLookup(t, AttachEntries(t, stats.value).0, RootId, PathOf(report));
    }
  }

  /** print() keeps the registries consistent. */
  lemma SettleKeepsOk(r: Registry, report: Entry, stats: Option<seq<Entry>>, x: NodeId)
    requires RegistryOk(r)
    ensures RegistryOk(Settle(r, report, stats, x).0)
  {
    var root := RootOf(report);
    var r' := Settle(r, report, stats, x).0;
    if root in r.classNames {
      forall k | k in r'.classEntries
        ensures |r'.classEntries[k]| < |r'.classNames[k]|
      {
        if k == root {
          assert |r'.classEntries[k]| <= Count(r, root) + 1;
        }
      }
    }
  }

  /**
   * A completion with stats in a registered family: one more summary is
   * buffered, and the report's node is printed, and the family evicted,
   * exactly when the summaries then match the names.
   */
  lemma CompletionInFamily(t: seq<NodeRec>, r: Registry, report: Entry, es: seq<Entry>)
    requires WellFormed(t) && RegistryOk(r) && NodesExist(t, report, Some(es))
    requires RootOf(report) in r.classNames
    ensures var root := RootOf(report);
            Count(r, root) + 1 <= |r.classNames[root]|
    ensures RegistryOk(Completion(t, r, report, Some(es)).1)
    ensures var c := Completion(t, r, report, Some(es));
            var root := RootOf(report);
            Count(r, root) + 1 == |r.classNames[root]| ==>
              && c.2 == Printed(Lookup(t, RootId, PathOf(report)).value)
              && root !in c.1.classNames && root !in c.1.classEntries && root !in c.1.testEntries
    ensures var c := Completion(t, r, report, Some(es));
            var root := RootOf(report);
            Count(r, root) + 1 < |r.classNames[root]| ==>
              && c.2 == Held
              && c.1.classNames == r.classNames
              && Count(c.1, root) == Count(r, root) + 1
  {
    var x := Lookup(t, RootId, PathOf(report)).value;
    CompletionFound(t, r, report, Some(es));
    SettleRegistered(r, report, Some(es), x);
    SettleKeepsOk(r, report, Some(es), x);
  }

  /** A run of completion events, each with its stats. */
  function CompleteAll(t: seq<NodeRec>, r: Registry, events: seq<(Entry, seq<Entry>)>)
    : (res: (seq<NodeRec>, Registry, seq<Outcome>))
    requires WellFormed(t)
    ensures WellFormed(res.0) && SameShape(t, res.0) && |res.2| == |events|
    decreases |events|
  {
    if |events| == 0 then (t, r, [])
    else
      var c := Completion(t, r, events[0].0, Some(events[0].1));
      var rest := CompleteAll(c.0, c.1, events[1..]);
      SameShapeTrans(t, c.0, rest.0);
      (rest.0, rest.1, [c.2] + rest.2)
  }

  /** The registry side of a run of completions whose nodes are known. */
  function SettleAll(r: Registry, events: seq<(Entry, seq<Entry>, NodeId)>): (res: (Registry, seq<Outcome>))
    ensures |res.1| == |events|
    decreases |events|
  {
    if |events| == 0 then (r, [])
    else
      var s := Settle(r, events[0].0, Some(events[0].1), events[0].2);
      var rest := SettleAll(s.0, events[1..]);
      (rest.0, [s.1] + rest.1)
  }

  /** The node a report is found at; ROOT when there is none. */
  function NodeOf(t: seq<NodeRec>, report: Entry): (x: NodeId)
    requires WellFormed(t)
    ensures Lookup(t, RootId, PathOf(report)).Some? ==> Lookup(t, RootId, PathOf(report)) == Some(x)
  {
    match Lookup(t, RootId, PathOf(report))
    case Some(x) => x
    case None => RootId
  }

  /** Each event with the node its report is found at. */
  function Located(t: seq<NodeRec>, events: seq<(Entry, seq<Entry>)>): (located: seq<(Entry, seq<Entry>, NodeId)>)
    requires WellFormed(t)
    ensures |located| == |events|
    ensures forall j | 0 <= j < |events| :: located[j] == (events[j].0, events[j].1, NodeOf(t, events[j].0))
  {
    seq(|events|, j requires 0 <= j < |events| => (events[j].0, events[j].1, NodeOf(t, events[j].0)))
  }

  /** When every node exists, a run of completions settles the registries event by event. */
  lemma {:induction false} CompleteAllSettles(t: seq<NodeRec>, r: Registry, events: seq<(Entry, seq<Entry>)>)
    requires WellFormed(t)
    requires forall j | 0 <= j < |events| :: NodesExist(t, events[j].0, Some(events[j].1))
    ensures var res := CompleteAll(t, r, events);
            (res.1, res.2) == SettleAll(r, Located(t, events))
    decreases |events|
  {
    if |events| > 0 {
      var e := events[0];
      var c := Completion(t, r, e.0, Some(e.1));
      CompletionFound(t, r, e.0, Some(e.1));
      var rest := events[1..];
      RestStillLocated(t, c.0, events);
      CompleteAllSettles(c.0, c.1, rest);
      var located := Located(t, events);
      var x := NodeOf(t, e.0);
      assert located[0] == (e.0, e.1, x);
      var s := Settle(r, e.0, Some(e.1), x);
      assert (c.1, c.2) == s;
      var tail := CompleteAll(c.0, c.1, rest);
      assert CompleteAll(t, r, events) == (tail.0, tail.1, [c.2] + tail.2);
      var settled := SettleAll(s.0, located[1..]);
      assert SettleAll(r, located) == (settled.0, [s.1] + settled.1);
    }
  }

  /** After a completion, the remaining events still find their nodes, at the same ids. */
  lemma RestStillLocated(t: seq<NodeRec>, u: seq<NodeRec>, events: seq<(Entry, seq<Entry>)>)
    requires WellFormed(t) && WellFormed(u) && SameShape(t, u) && |events| > 0
    requires forall j | 0 <= j < |events| :: NodesExist(t, events[j].0, Some(events[j].1))
    ensures forall j | 0 <= j < |events| - 1 :: NodesExist(u, events[1..][j].0, Some(events[1..][j].1))
    ensures Located(u, events[1..]) == Located(t, events)[1..]
  {
    var rest := events[1..];
    forall j | 0 <= j < |rest|
      ensures NodesExist(u, rest[j].0, Some(rest[j].1))
      ensures NodeOf(u, rest[j].0) == NodeOf(t, rest[j].0)
    {
      assert rest[j] == events[j + 1];
      NodesExistSameShape(t, u, rest[j].0, Some(rest[j].1));
    }
  }

  /**
   * A registered family with N names and c buffered summaries, receiving N - c
   * completions of its own classes (with no new registration in between),
   * holds the first N - c - 1 and prints exactly once, at the last one, the
   * node of that last class; the family is then gone from the registries.
   */
  lemma {:induction false} FamilySettlesOnce(r: Registry, root: string, events: seq<(Entry, seq<Entry>, NodeId)>)
    requires RegistryOk(r) && root in r.classNames
    requires forall j | 0 <= j < |events| :: RootOf(events[j].0) == root
    requires Count(r, root) + |events| == |r.classNames[root]|
    ensures |events| > 0
    ensures var res := SettleAll(r, events);
            && (forall j | 0 <= j < |events| - 1 :: res.1[j] == Held)
            && res.1[|events| - 1] == Printed(events[|events| - 1].2)
            && root !in res.0.classNames && root !in res.0.classEntries && root !in res.0.testEntries
    decreases |events|
  {
    var e := events[0];
    var s := Settle(r, e.0, Some(e.1), e.2);
    var rest := events[1..];
    var res := SettleAll(r, events);
    var tail := SettleAll(s.0, rest);
    SettleAllCons(r, events);
    assert RootOf(e.0) == root;
    if |rest| > 0 {
      FamilyHolds(r, root, e);
      assert forall j | 0 <= j < |rest| :: RootOf(rest[j].0) == root by {
        forall j | 0 <= j < |rest| ensures RootOf(rest[j].0) == root {
          assert rest[j] == events[j + 1];
        }
      }
      assert RegistryOk(s.0) && root in s.0.classNames;
      assert Count(s.0, root) + |rest| == |s.0.classNames[root]|;
      FamilySettlesOnce(s.0, root, rest);
      assert rest[|rest| - 1] == events[|events| - 1];
      assert res.1 == [Held] + tail.1 && res.0 == tail.0;
      assert res.1[|events| - 1] == tail.1[|rest| - 1];
      forall j | 0 <= j < |events| - 1 ensures res.1[j] == Held {
        if j > 0 { assert res.1[j] == tail.1[j - 1]; }
      }
    } else {
      FamilyCompletes(r, root, e);
      assert tail == (s.0, []);
    }
  }

  /** A completion of a family that still lacks more than one summary holds and buffers it. */
  lemma FamilyHolds(r: Registry, root: string, e: (Entry, seq<Entry>, NodeId))
    requires RegistryOk(r) && root in r.classNames && RootOf(e.0) == root
    requires Count(r, root) + 1 < |r.classNames[root]|
    ensures var s := Settle(r, e.0, Some(e.1), e.2);
            && s.1 == Held && RegistryOk(s.0) && root in s.0.classNames
            && s.0.classNames[root] == r.classNames[root] && Count(s.0, root) == Count(r, root) + 1
  {
    SettleRegistered(r, e.0, Some(e.1), e.2);
    SettleKeepsOk(r, e.0, Some(e.1), e.2);
  }

  /** A completion of a family's last missing summary prints its node and evicts the family. */
  lemma FamilyCompletes(r: Registry, root: string, e: (Entry, seq<Entry>, NodeId))
    requires RegistryOk(r) && root in r.classNames && RootOf(e.0) == root
    requires Count(r, root) + 1 == |r.classNames[root]|
    ensures var s := Settle(r, e.0, Some(e.1), e.2);
            && s.1 == Printed(e.2)
            && root !in s.0.classNames && root !in s.0.classEntries && root !in s.0.testEntries
  {
    SettleRegistered(r, e.0, Some(e.1), e.2);
  }

  /** One step of SettleAll. */
  lemma SettleAllCons(r: Registry, events: seq<(Entry, seq<Entry>, NodeId)>)
    requires |events| > 0
    ensures var s := Settle(r, events[0].0, Some(events[0].1), events[0].2);
            var tail := SettleAll(s.0, events[1..]);
            SettleAll(r, events) == (tail.0, [s.1] + tail.1)
  {
  }

  /**
   * The same for print() itself: N - c completions of a registered family's
   * classes, whose nodes exist, hold all but the last, which prints its own
   * node, and leave the family evicted.
   */
  lemma FamilyPrintsOnce(t: seq<NodeRec>, r: Registry, root: string, events: seq<(Entry, seq<Entry>)>)
    requires WellFormed(t) && RegistryOk(r) && root in r.classNames
    requires forall j | 0 <= j < |events| :: RootOf(events[j].0) == root && NodesExist(t, events[j].0, Some(events[j].1))
    requires Count(r, root) + |events| == |r.classNames[root]|
    ensures |events| > 0
    ensures var res := CompleteAll(t, r, events);
            && (forall j | 0 <= j < |events| - 1 :: res.2[j] == Held)
            && res.2[|events| - 1].Printed?
            && Lookup(t, RootId, PathOf(events[|events| - 1].0)) == Some(res.2[|events| - 1].node)
            && root !in res.1.classNames && root !in res.1.classEntries && root !in res.1.testEntries
  {
    CompleteAllSettles(t, r, events);
    var located := Located(t, events);
    FamilySettlesOnce(r, root, located);
  }

  // ----------------------------------------------------------------- classes

  /** The static state every handler shares: the tree under ROOT and the three registries. */
  class Shared {
    const tree: Tree
    var classNames: map<string, set<string>>
    var classEntries: map<string, seq<Entry>>
    var testEntries: map<string, seq<Entry>>

    /** The registries as a value. */
    function State(): Registry
      reads this
    {
      Registry(classNames, classEntries, testEntries)
    }

    ghost predicate Valid()
      reads this, tree
    {
      tree.Valid() && RegistryOk(State())
    }

    /** The static initialisers: `Node.getRoot()` and three empty maps. */
    constructor ()
      ensures Valid() && fresh(tree)
      ensures tree.nodes == [RootRec()] && State() == EmptyRegistry
    {
      tree := new Tree();
      classNames := map[];
      classEntries := map[];
      testEntries := map[];
    }
  }

  /** One handler per class event: the class's report, its results (null before the run) and its root name. */
  class TestReportHandler {
    const report: Entry
    const stats: Option<seq<Entry>>
    const sourceRootName: string

    constructor (report: Entry, stats: Option<seq<Entry>>)
      ensures this.report == report && this.stats == stats
      ensures Valid()
    {
      this.report := report;
      this.stats := stats;
      sourceRootName := ClassPath.SourceRootName(report.sourceName);
    }

    /** The root name is the report's first path segment, as the constructor computes it. */
    predicate Valid() {
      sourceRootName == RootOf(report)
    }

    /** prepare(): add the report's node; register the class when it is nested. */
    method Prepare(s: Shared)
      requires Valid() && s.Valid()
      modifies s, s.tree
      ensures s.Valid()
      ensures (s.tree.nodes, s.State()) == Prepared(old(s.tree.nodes), old(s.State()), report, stats)
    {
      var _ := s.tree.AddNode(RootId, report);
      if HasNestedTests(report, stats) {
        MarkClassNamesForNestedTests(s);
      }
      RegisterKeepsOk(old(s.State()), report, stats);
    }

    /** markClassNamesForNestedTests(): putIfAbsent the root's own name, then add the report's. */
    method MarkClassNamesForNestedTests(s: Shared)
      requires Valid()
      modifies s
      ensures s.State() == MarkClassNames(old(s.State()), sourceRootName, report.sourceName)
    {
      if sourceRootName !in s.classNames {
        s.classNames := s.classNames[sourceRootName := {sourceRootName}];
      }
      s.classNames := s.classNames[sourceRootName := s.classNames[sourceRootName] + {report.sourceName}];
    }

    /**
     * print(treePrinter): the stats loop, the class summary, then the nested
     * bookkeeping; the outcome records the printer call or the exception.
     */
    method Print(s: Shared) returns (outcome: Outcome)
      requires Valid() && s.Valid()
      modifies s, s.tree
      ensures s.Valid()
      ensures (s.tree.nodes, s.State(), outcome) == Completion(old(s.tree.nodes), old(s.State()), report, stats)
    {
      var missing := AddStats(s);
      if missing.Some? {
        return MissingNode(missing.value);
      }
      ghost var a := s.tree.nodes;
      var found := Lookup(s.tree.nodes, RootId, ClassPath.GetTestClassPath(report.sourceName));
      if found.None? {
        return MissingNode(PathOf(report));
      }
      var classToBeTested := found.value;
      s.tree.SetClassReportEntry(classToBeTested, report);
      outcome := SettleRegistries(s, classToBeTested);
      SettleKeepsOk(old(s.State()), report, stats, classToBeTested);
    }

    /** The stats loop of print(): add each result to the node at its path, failing on a missing node. */
    method AddStats(s: Shared) returns (missing: Option<seq<string>>)
      requires s.tree.Valid()
      modifies s.tree
      ensures s.tree.Valid()
      ensures (s.tree.nodes, missing) == if stats.Some? then AttachEntries(old(s.tree.nodes), stats.value)
                                          else (old(s.tree.nodes), None)
    {
      ghost var t0 := s.tree.nodes;
      if stats.None? {
        return None;
      }
      var es := stats.value;
      var i := 0;
      while i < |es|
        invariant 0 <= i <= |es|
        invariant s.tree.Valid()
        invariant AttachEntries(t0, es) == AttachEntries(s.tree.nodes, es[i..])
      {
        var x := Lookup(s.tree.nodes, RootId, ClassPath.GetTestClassPath(es[i].sourceName));
        assert es[i..][0] == es[i] && es[i..][1..] == es[i + 1..];
        if x.None? {
          return Some(PathOf(es[i]));
        }
        s.tree.AddEntry(x.value, es[i]);
        i := i + 1;
      }
      assert es[i..] == [];
      missing := None;
    }

    /** The registry half of print(), once the class node has its summary. */
    method SettleRegistries(s: Shared, classToBeTested: NodeId) returns (outcome: Outcome)
      requires Valid()
      modifies s
      ensures (s.State(), outcome) == Settle(old(s.State()), report, stats, classToBeTested)
    {
      if sourceRootName !in s.classNames {
        return Printed(classToBeTested);
      }
      var failed := PrepareEntriesForNestedTests(s);
      if failed {
        return NullStats;
      }
      var ready := IsNestedTestReadyToPrint(s);
      if ready {
        outcome := Printed(classToBeTested);
        CleanEntries(s);
      } else {
        outcome := Held;
      }
    }

    /**
     * prepareEntriesForNestedTests(): buffer the results when they are nested,
     * then the summary; `failed` is the dereference of null stats, which
     * happens after computeIfAbsent has created the root's result list.
     */
    method PrepareEntriesForNestedTests(s: Shared) returns (failed: bool)
      requires Valid()
      modifies s
      ensures failed <==> HasNestedTests(report, stats) && stats.None?
      ensures s.classNames == old(s.classNames)
      ensures s.testEntries == if HasNestedTests(report, stats)
                               then AppendAt(old(s.testEntries), sourceRootName, if failed then [] else stats.value)
                               else old(s.testEntries)
      ensures s.classEntries == if failed then old(s.classEntries)
                                else AppendAt(old(s.classEntries), sourceRootName, [report])
    {
      failed := false;
      if HasNestedTests(report, stats) {
        failed := PrepareTestEntriesForNestedTest(s);
        if failed {
          return;
        }
      }
      PrepareClassEntriesForNestedTest(s);
    }

    /**
     * prepareTestEntriesForNestedTest(): computeIfAbsent creates the root's
     * list, then the results are added; null stats fail at that second step.
     */
    method PrepareTestEntriesForNestedTest(s: Shared) returns (failed: bool)
      modifies s
      ensures failed <==> stats.None?
      ensures s.classNames == old(s.classNames) && s.classEntries == old(s.classEntries)
      ensures s.testEntries == AppendAt(old(s.testEntries), sourceRootName, if failed then [] else stats.value)
    {
      var list := if sourceRootName in s.testEntries then s.testEntries[sourceRootName] else [];
      s.testEntries := s.testEntries[sourceRootName := list];
      if stats.None? {
        assert list + [] == list;
        return true;
      }
      s.testEntries := s.testEntries[sourceRootName := list + stats.value];
      failed := false;
    }

    /** prepareClassEntriesForNestedTest(): append the report to the root's summary list. */
    method PrepareClassEntriesForNestedTest(s: Shared)
      modifies s
      ensures s.classNames == old(s.classNames) && s.testEntries == old(s.testEntries)
      ensures s.classEntries == AppendAt(old(s.classEntries), sourceRootName, [report])
    {
      var list := if sourceRootName in s.classEntries then s.classEntries[sourceRootName] else [];
      s.classEntries := s.classEntries[sourceRootName := list + [report]];
    }

    /** isNestedTestReadyToPrint(): as many summaries as names. */
    method IsNestedTestReadyToPrint(s: Shared) returns (ready: bool)
      requires sourceRootName in s.classEntries && sourceRootName in s.classNames
      ensures ready <==> |s.classEntries[sourceRootName]| == |s.classNames[sourceRootName]|
    {
      ready := |s.classEntries[sourceRootName]| == |s.classNames[sourceRootName]|;
    }

    /** cleanEntries(): remove the family from the three registries. */
    method CleanEntries(s: Shared)
      modifies s
      ensures s.State() == Evict(old(s.State()), sourceRootName)
    {
      s.classNames := s.classNames - {sourceRootName};
      s.classEntries := s.classEntries - {sourceRootName};
      s.testEntries := s.testEntries - {sourceRootName};
    }
  }
}
