# Nested-class test tree reporter: tree, family aggregator and renderer

This project models the core of a Maven Surefire console reporter that prints JUnit 5 results as a tree. It covers three parts:

- **The report tree** (`Node.java`, module `NodeTree`).
  - An ordered, name-keyed tree of nodes, each one a segment of a `$`-separated nested class name.
  - Every node keeps its children twice: as an insertion-ordered list (`branches`) and as a name-to-child map (`branchMap`).
  - It also keeps a parent back-reference, a depth, the test results attached to it and an optional class summary.
  - All nodes live in a node table owned by one `Tree` object. A `NodeId` is a node's index in that table and stands for a Java reference; ROOT is entry 0. Nodes are only ever appended, so a child's id is larger than its parent's. A removed branch keeps its record in the table, as a detached Java object keeps its fields.
  - Pure functions over the table (`Generate`, `Insert`, `Lookup`, `GetParent`, `Remove`, `Clear`) carry the properties. The methods of class `Tree` update the table in place and are proved equal to them.
- **Splitting class names** (module `ClassPath`). This is `split("\\$", -1)` on a qualified name, which keeps empty segments. The root name is the first segment.
- **The nested-family aggregator** (`TestReportHandler.java`, module `Handler`).
  - The three static registries are `classNames`, `classEntries` and `testEntries`. They live, together with the shared root tree, in one explicit `Shared` object. Class `TestReportHandler` holds one report, its optional stats and its root name.
  - `prepare` inserts the report's path and registers a nested class under its root.
  - `print` does four things:
    1. it attaches each result to the node at its own path;
    2. it sets the class summary;
    3. it buffers the summary under the root;
    4. it hands the class's node to the printer, either at once (an unregistered root) or when the family holds as many summaries as registered names, and then evicts the family.
  - Instead of calling a printer, `print` returns an `Outcome`:
    - `Printed(node)`;
    - `Held`;
    - `MissingNode(path)`, where `Optional.get()` throws;
    - `NullStats`, where a nested report without stats dereferences null.
  - The pure functions `Prepared`, `Completion` and `Settle` describe one event each. `CompleteAll`/`SettleAll` describe a sequence of events.
- **The renderer** (`ActualTreePrinter.java`, module `Printer`).
  - Theme glyphs are an abstract datatype, and a printed line is a structured `Line` value. Every `println` or stream replay appends one line to `log`.
  - The pure functions `ClassPrefix`, `TestPrefix`, `EntryLines`, `RenderNode` and `Output` specify what the methods of class `ActualTreePrinter` log:
    - a class line per node;
    - one result line per attached entry, plus any detail blocks;
    - then the children, in pre-order;
    - and finally `clearTree`.

Two details of the code shape what is printed:

- **Which node is printed.** `print()` hands the printer the completing report's own node, `classToBeTested` (`TestReportHandler.java:47,53,56`), and prunes nothing from the tree. The model returns `Printed(x)` with `x` that node.
- **Names.** `cleanReportName` strips the parent's summary name plus one character, and only when the parent has a summary (`ActualTreePrinter.java:138-145`). The model does the same (`StripParentName`).

## Model

| member | source | states |
|---|---|---|
| ClassPath.GetTestClassPath | src/main/java/org/apache/maven/plugin/surefire/report/TestReportHandler.java:60-62 | the path is non-empty, no segment contains '$', and joining the segments with '$' gives back the name |
| ClassPath.SplitJoin | src/main/java/org/apache/maven/plugin/surefire/report/TestReportHandler.java:60-62 | splitting the '$'-join of '$'-free segments gives back exactly those segments (empty ones included) |
| ClassPath.SplitSingle | src/main/java/org/apache/maven/plugin/surefire/report/TestReportHandler.java:60-62 | a name without '$' splits into the one-segment path holding itself |
| ClassPath.SplitAtFirstDollar | src/main/java/org/apache/maven/plugin/surefire/report/TestReportHandler.java:60-62 | the first '$' ends the first segment and the rest splits on its own |
| ClassPath.NestedIffManySegments | src/main/java/org/apache/maven/plugin/surefire/report/TestReportHandler.java:144-146 | a name contains character 36 exactly when its path has more than one segment |
| ClassPath.SourceRootNameIsPrefix | src/main/java/org/apache/maven/plugin/surefire/report/TestReportHandler.java:126-128 | the root name is a '$'-free prefix of the source name that ends at the end of the name or at its first '$' |
| Handler.AnyNested | src/main/java/org/apache/maven/plugin/surefire/report/TestReportHandler.java:138-142 | true exactly when some stats entry's source name contains '$' |
| Handler.NestedReportPath | src/main/java/org/apache/maven/plugin/surefire/report/TestReportHandler.java:130-146 | without stats a report is nested exactly when its path has more than one segment |
| Handler.AppendAt | src/main/java/org/apache/maven/plugin/surefire/report/TestReportHandler.java:85-87 | computeIfAbsent(k).addAll(xs): k becomes a key, its list is the old list (or empty) followed by xs, every other key is unchanged |
| Handler.MarkClassNames | src/main/java/org/apache/maven/plugin/surefire/report/TestReportHandler.java:76-79 | the root's name set becomes {root, source} when absent and gains the source name otherwise; other families and the two buffers are unchanged |
| Handler.Evict | src/main/java/org/apache/maven/plugin/surefire/report/TestReportHandler.java:93-97 | the root is absent from all three registries afterwards and every other key keeps its value |
| Handler.PreparedRegisters | src/main/java/org/apache/maven/plugin/surefire/report/TestReportHandler.java:34-39 | prepare inserts the report's path, after which the path leads to a node named like its last segment; a nested report's root is registered with the report's source name and the root itself, a non-nested one leaves the registries unchanged |
| Handler.RegisterKeepsOk | src/main/java/org/apache/maven/plugin/surefire/report/TestReportHandler.java:76-79 | registering keeps the registry invariant: each name set holds its root, buffers exist only for registered roots, no family is left holding as many summaries as names |
| Handler.AttachEntries | src/main/java/org/apache/maven/plugin/surefire/report/TestReportHandler.java:42-45 | attaching results leaves every node's name, depth, parent and children unchanged |
| Handler.AttachEntriesComplete | src/main/java/org/apache/maven/plugin/surefire/report/TestReportHandler.java:42-45 | the stats loop runs to its end without a missing node exactly when every result's path exists in the tree |
| Handler.AttachEntriesAppends | src/main/java/org/apache/maven/plugin/surefire/report/TestReportHandler.java:42-45 | each node receives, after the results it had, exactly the results whose path leads to it, in stats order |
| Handler.Completion | src/main/java/org/apache/maven/plugin/surefire/report/TestReportHandler.java:41-58 | a completion changes no node's name, depth, parent or children |
| Handler.CompletionFound | src/main/java/org/apache/maven/plugin/surefire/report/TestReportHandler.java:47-58 | when the nodes exist, the tree becomes the stats-attached tree with the report set as that node's class summary, and the registries settle with that node |
| Handler.CompletionMissing | src/main/java/org/apache/maven/plugin/surefire/report/TestReportHandler.java:42-47 | when the report's path is missing, the event fails and leaves the registries as they were; the tree keeps the stats results attached before the failure, and the failing path is the first missing result's, or the report's own; without stats nothing changes |
| Handler.SettleUnregistered | src/main/java/org/apache/maven/plugin/surefire/report/TestReportHandler.java:55-57 | for a root never registered, the class's node is printed at once and the registries are untouched |
| Handler.SettleRegistered | src/main/java/org/apache/maven/plugin/surefire/report/TestReportHandler.java:50-54 | for a registered root, the summary (and the nested results) are appended; when the summary count reaches the name-set size (the readiness test of TestReportHandler.java:106-108) the node is printed and the root evicted from all three maps, otherwise nothing prints, the count grows by one, and a non-nested report leaves the root's result buffer as it was |
| Handler.SettleNullStats | src/main/java/org/apache/maven/plugin/surefire/report/TestReportHandler.java:85-87 | a nested report without stats fails after computeIfAbsent, which leaves the root's result buffer as it was or creates it empty; names and summaries are unchanged |
| Handler.SettleOtherFamilies | src/main/java/org/apache/maven/plugin/surefire/report/TestReportHandler.java:14-17 | the three maps are shared, and a completion in one family leaves every other family's names, summaries and results, and their presence, unchanged |
| Handler.SettleKeepsOk | src/main/java/org/apache/maven/plugin/surefire/report/TestReportHandler.java:99-113 | settling an event keeps the registry invariant |
| Handler.CompletionInFamily | src/main/java/org/apache/maven/plugin/surefire/report/TestReportHandler.java:50-54 | within a registered family one completion either holds (count + 1 below the name count) or prints the report's node and evicts the family, and keeps the invariant |
| Handler.CompleteAllSettles | src/main/java/org/apache/maven/plugin/surefire/report/TestReportHandler.java:41-58 | a sequence of completions has the registry effects and outcomes of settling each event at its node in turn |
| Handler.FamilyHolds | src/main/java/org/apache/maven/plugin/surefire/report/TestReportHandler.java:50-54 | a family member completing before the last one is held and raises the count by one |
| Handler.FamilyCompletes | src/main/java/org/apache/maven/plugin/surefire/report/TestReportHandler.java:106-113 | the member whose summary makes the count equal the name-set size is printed and the family is evicted |
| Handler.FamilySettlesOnce | src/main/java/org/apache/maven/plugin/surefire/report/TestReportHandler.java:50-54 | when exactly the missing members of a family complete, all but the last are held, the last is printed, and the family is gone from all three maps |
| Handler.FamilyPrintsOnce | src/main/java/org/apache/maven/plugin/surefire/report/TestReportHandler.java:41-58 | the same over whole completion events on the tree: the printer is called once, for the last completing member's node, and the family is evicted |
| Handler.Shared.constructor | src/main/java/org/apache/maven/plugin/surefire/report/TestReportHandler.java:14-17 | the shared state starts as the bare ROOT and three empty maps |
| Handler.TestReportHandler.constructor | src/main/java/org/apache/maven/plugin/surefire/report/TestReportHandler.java:24-32 | keeps the report and stats and computes the root name |
| Handler.TestReportHandler.Prepare | src/main/java/org/apache/maven/plugin/surefire/report/TestReportHandler.java:34-39 | updates the tree and registries in place to what Prepared gives, keeping the registry invariant |
| Handler.TestReportHandler.MarkClassNamesForNestedTests | src/main/java/org/apache/maven/plugin/surefire/report/TestReportHandler.java:76-79 | updates the registries to MarkClassNames of the old ones |
| Handler.TestReportHandler.Print | src/main/java/org/apache/maven/plugin/surefire/report/TestReportHandler.java:41-58 | updates tree and registries and returns the outcome exactly as Completion gives, keeping the invariant |
| Handler.TestReportHandler.AddStats | src/main/java/org/apache/maven/plugin/surefire/report/TestReportHandler.java:42-45 | the loop over the stats leaves the tree as AttachEntries gives and reports the first missing path |
| Handler.TestReportHandler.SettleRegistries | src/main/java/org/apache/maven/plugin/surefire/report/TestReportHandler.java:50-57 | updates the registries and chooses the outcome as Settle gives |
| Handler.TestReportHandler.PrepareEntriesForNestedTests | src/main/java/org/apache/maven/plugin/surefire/report/TestReportHandler.java:99-104 | fails exactly for nested tests without stats; otherwise appends the stats (when nested) and the summary to the root's buffers |
| Handler.TestReportHandler.PrepareTestEntriesForNestedTest | src/main/java/org/apache/maven/plugin/surefire/report/TestReportHandler.java:85-87 | creates the root's test buffer if absent, then appends the stats or fails on null stats |
| Handler.TestReportHandler.PrepareClassEntriesForNestedTest | src/main/java/org/apache/maven/plugin/surefire/report/TestReportHandler.java:68-70 | appends the report to the root's summary buffer |
| Handler.TestReportHandler.CleanEntries | src/main/java/org/apache/maven/plugin/surefire/report/TestReportHandler.java:93-97 | evicts the root from the three registries |
| NodeTree.ContainsBranch | src/main/java/org/apache/maven/plugin/surefire/report/Node.java:93-95 | true exactly when some child in the list carries the name |
| NodeTree.BranchNode | src/main/java/org/apache/maven/plugin/surefire/report/Node.java:97-99 | returns a child in the list carrying the name and pointing back to the node, and nothing exactly when no child has that name |
| NodeTree.Generate | src/main/java/org/apache/maven/plugin/surefire/report/Node.java:82-87 | appends a fresh node one level deeper at the end of the children, adds it to the map, and leaves every other node unchanged; the tree stays well formed |
| NodeTree.GenerateWellFormed | src/main/java/org/apache/maven/plugin/surefire/report/Node.java:82-87 | adding a child under a new name keeps list and map in agreement, names unique and child depth = parent depth + 1 |
| NodeTree.Insert | src/main/java/org/apache/maven/plugin/surefire/report/Node.java:75-80 | insertion keeps the tree well formed, only adds nodes, and an empty path returns the node itself with nothing changed |
| NodeTree.InsertEnd | src/main/java/org/apache/maven/plugin/surefire/report/Node.java:75-80 | after insertion the path leads to the returned node, which carries the path's last name at depth start + path length |
| NodeTree.InsertEndParent | src/test/java/org/apache/maven/plugin/surefire/report/NodeTest.java:27-31 | the node addChildren returns hangs below the node the path minus its last segment leads to, which carries the second-to-last name; a one-segment path hangs it below the start |
| NodeTree.LookupParent | src/main/java/org/apache/maven/plugin/surefire/report/Node.java:105-112 | the node a path leads to is a child of the node the path minus its last segment leads to, named after the second-to-last segment; with one segment, of the start node |
| NodeTree.InsertFrame | src/main/java/org/apache/maven/plugin/surefire/report/Node.java:75-80 | earlier nodes are unchanged; the start node gains a child at the end of its list only when the first name is new |
| NodeTree.InsertExisting | src/main/java/org/apache/maven/plugin/surefire/report/Node.java:75-80 | inserting a path that already exists changes nothing and returns the existing node |
| NodeTree.InsertIdempotent | src/main/java/org/apache/maven/plugin/surefire/report/Node.java:75-80 | inserting the same path twice is the same as inserting it once |
| NodeTree.SharedParentScenario | src/main/java/org/apache/maven/plugin/surefire/report/Node.java:75-87 | adding Parent$Child1 then Parent$Child2 to a fresh tree gives one Parent holding Child1 and Child2 in that order |
| NodeTree.LookupAppend | src/main/java/org/apache/maven/plugin/surefire/report/Node.java:105-112 | looking up p + q is looking up p and then q from the node found |
| NodeTree.LookupPartial | src/main/java/org/apache/maven/plugin/surefire/report/Node.java:105-112 | if a prefix of a path is missing, the whole path is missing |
| NodeTree.LookupFound | src/main/java/org/apache/maven/plugin/surefire/report/Node.java:105-112 | a found node carries the path's last name, lies path-length levels below the start, and its ancestor chain passes through the start |
| NodeTree.SameShapeLookup | src/main/java/org/apache/maven/plugin/surefire/report/Node.java:105-112 | attaching results or summaries does not change what any path leads to |
| NodeTree.AncestorsDepth | src/main/java/org/apache/maven/plugin/surefire/report/Node.java:54-64 | a node has as many ancestors as its depth and the chain ends at ROOT |
| NodeTree.GetParent | src/main/java/org/apache/maven/plugin/surefire/report/Node.java:114-118 | a found ancestor was created before the node |
| NodeTree.GetParentNearest | src/main/java/org/apache/maven/plugin/surefire/report/Node.java:114-118 | getParent(name) is the nearest strict ancestor with that name, or empty when none has it |
| NodeTree.FirstNamed | src/main/java/org/apache/maven/plugin/surefire/report/Node.java:114-118 | the first node of a chain carrying the name; empty exactly when none does |
| NodeTree.RemoveFirstNamed | src/main/java/org/apache/maven/plugin/surefire/report/Node.java:120-126 | List.remove under name equality (equals compares names only) keeps only elements of the list |
| NodeTree.RemoveFirstNamedSplices | src/main/java/org/apache/maven/plugin/surefire/report/Node.java:45-48 | List.remove(Object) drops exactly the first branch with the name and keeps the rest in order |
| NodeTree.Remove | src/main/java/org/apache/maven/plugin/surefire/report/Node.java:45-48 | removeBranch keeps the tree well formed and changes only the parent's children: every other node, and the parent's name, depth, parent, results and summary, are kept |
| NodeTree.RemoveWellFormed | src/main/java/org/apache/maven/plugin/surefire/report/Node.java:45-48 | removing a name from both list and map keeps them in agreement |
| NodeTree.RemoveAbsentNoop | src/main/java/org/apache/maven/plugin/surefire/report/Node.java:45-48 | when no child has the name, the map has no such key either, so removal changes nothing |
| NodeTree.IndexOfChild | src/main/java/org/apache/maven/plugin/surefire/report/Node.java:120-126 | with unique sibling names, name equality finds the child itself |
| NodeTree.RemoveChild | src/main/java/org/apache/maven/plugin/surefire/report/Node.java:45-48 | removing a child drops it from list and map, the child count decreases by one, and its name is no longer found |
| NodeTree.RemoveKeepsSiblings | src/main/java/org/apache/maven/plugin/surefire/report/Node.java:45-48 | every other child stays in the list and is still found under its name |
| NodeTree.Clear | src/main/java/org/apache/maven/plugin/surefire/report/Node.java:24-27 | ROOT has no branches and answers every containsBranch/getBranchNode with false/empty; other nodes keep their fields |
| NodeTree.AppendEntry | src/main/java/org/apache/maven/plugin/surefire/report/TestReportHandler.java:44 | adding a result appends it to the end of that node's list, keeps its summary and the tree's shape, and leaves every other node as it was |
| NodeTree.SetClassEntry | src/main/java/org/apache/maven/plugin/surefire/report/Node.java:136-138 | the node's summary becomes the given report, its results and the tree's shape are kept, and every other node is left as it was |
| NodeTree.Tree.constructor | src/main/java/org/apache/maven/plugin/surefire/report/Node.java:15 | a fresh tree is the bare ROOT at depth 0 |
| NodeTree.Tree.GenerateBranch | src/main/java/org/apache/maven/plugin/surefire/report/Node.java:82-87 | updates the table in place to what Generate gives |
| NodeTree.Tree.AddChildren | src/main/java/org/apache/maven/plugin/surefire/report/Node.java:75-80 | updates the table in place and returns the node as Insert gives |
| NodeTree.Tree.AddNode | src/main/java/org/apache/maven/plugin/surefire/report/Node.java:66-69 | inserts the report's '$'-split source name |
| NodeTree.Tree.RemoveBranch | src/main/java/org/apache/maven/plugin/surefire/report/Node.java:45-48 | updates the table in place to what Remove gives |
| NodeTree.Tree.ClearTree | src/main/java/org/apache/maven/plugin/surefire/report/Node.java:24-27 | updates the table in place to what Clear gives |
| NodeTree.Tree.SetClassReportEntry | src/main/java/org/apache/maven/plugin/surefire/report/Node.java:136-138 | sets the node's class summary |
| NodeTree.Tree.AddEntry | src/main/java/org/apache/maven/plugin/surefire/report/TestReportHandler.java:44 | appends a result to the node's list |
| Printer.RootChild | src/main/java/org/apache/maven/plugin/surefire/report/ActualTreePrinter.java:71 | the first branch is a child of the printed node |
| Printer.LastChild | src/main/java/org/apache/maven/plugin/surefire/report/ActualTreePrinter.java:80-82 | the last branch is a child of the node |
| Printer.ParentOf | src/main/java/org/apache/maven/plugin/surefire/report/Node.java:128-130 | the parent lies one level above the node |
| Printer.IsLastMissingBranchIff | src/main/java/org/apache/maven/plugin/surefire/report/ActualTreePrinter.java:70-78 | true exactly when the first branch has no children, or the node is its last child, or some ancestor is named like that child |
| Printer.ClassPrefix | src/main/java/org/apache/maven/plugin/surefire/report/ActualTreePrinter.java:112-130 | max(depth,1) glyphs: end/entry at depth 2, blank/pipe then depth-3 blanks then end above depth 2, and always down for a node with children and dash otherwise |
| Printer.IndexOf | src/main/java/org/apache/maven/plugin/surefire/report/ActualTreePrinter.java:109 | List.indexOf: the first position holding the entry, or -1 when none does |
| Printer.LastTestByPosition | src/main/java/org/apache/maven/plugin/surefire/report/ActualTreePrinter.java:108-110 | among distinct results, isLastTestToBeEval holds exactly when the entry is not the last |
| Printer.TestPrefix | src/main/java/org/apache/maven/plugin/surefire/report/ActualTreePrinter.java:84-106 | depth+1 glyphs (2 at depth 0): blank/pipe, depth-2 blanks, pipe only when parent and node both have children, then entry/end |
| Printer.TestPrefixEnd | src/main/java/org/apache/maven/plugin/surefire/report/ActualTreePrinter.java:100-104 | among distinct results the last one's prefix ends in end() and every other one's in entry() |
| Printer.StripParentName | src/main/java/org/apache/maven/plugin/surefire/report/ActualTreePrinter.java:138-145 | without a parent summary the name is kept; with one, parent-name length + 1 characters are dropped from the front |
| Printer.StripJoinedName | src/main/java/org/apache/maven/plugin/surefire/report/ActualTreePrinter.java:138-145 | a name built as parent name, separator, simple name is cleaned back to the simple name |
| Printer.SkippedMessage | src/main/java/org/apache/maven/plugin/surefire/report/ActualTreePrinter.java:183-189 | empty exactly for a blank message, " (" + message + ")" otherwise |
| Printer.StackTraceText | src/main/java/org/apache/maven/plugin/surefire/report/ActualTreePrinter.java:217-226 | a null or blank trace prints "[No stack trace available]", any other trace prints itself |
| Printer.DetailsGating | src/main/java/org/apache/maven/plugin/surefire/report/ActualTreePrinter.java:147-167 | details appear exactly when one of the three blocks is switched on for the status, and then start with the preamble |
| Printer.DetailsByStatus | src/main/java/org/apache/maven/plugin/surefire/report/ActualTreePrinter.java:147-167 | a skipped test prints no details and a successful one never a stack trace |
| Printer.ResultPart | src/main/java/org/apache/maven/plugin/surefire/report/ActualTreePrinter.java:41-47 | exactly one result line carrying the test prefix, except none for a success when successes are hidden |
| Printer.EntryResultCount | src/main/java/org/apache/maven/plugin/surefire/report/ActualTreePrinter.java:40-49 | one result line per entry, none for a success when successes are hidden |
| Printer.ResultCount | src/main/java/org/apache/maven/plugin/surefire/report/ActualTreePrinter.java:36 | a node's result lines number its entries less the hidden successes |
| Printer.HiddenSuccess | src/main/java/org/apache/maven/plugin/surefire/report/ActualTreePrinter.java:45-48 | a hidden success prints only its details |
| Printer.RenderBranchesHead | src/main/java/org/apache/maven/plugin/surefire/report/ActualTreePrinter.java:37 | the children's output opens with the first child's class line |
| Printer.RenderNodeLayout | src/main/java/org/apache/maven/plugin/surefire/report/ActualTreePrinter.java:34-38 | print(node) prints its class line, then exactly its results in list order with no class line among them, then the first child's class line when it has children; a leaf prints nothing after its results |
| Printer.PreOrder | src/main/java/org/apache/maven/plugin/surefire/report/ActualTreePrinter.java:34-38 | the pre-order of a subtree starts at its root and lists only n and nodes stored after n in the table; that these lie below n is PreOrderDescends |
| Printer.PreOrderDescends | src/main/java/org/apache/maven/plugin/surefire/report/ActualTreePrinter.java:34-38 | every node of n's pre-order after n itself has n on its ancestor chain |
| Printer.PreOrderBranchesDescend | src/main/java/org/apache/maven/plugin/surefire/report/ActualTreePrinter.java:37 | every node of the pre-orders of p's children has p on its ancestor chain |
| Printer.RenderPreOrder | src/main/java/org/apache/maven/plugin/surefire/report/ActualTreePrinter.java:34-38 | print(node) prints exactly one class line per node of the subtree, in pre-order |
| Printer.RenderBranchesPreOrder | src/main/java/org/apache/maven/plugin/surefire/report/ActualTreePrinter.java:37 | the children's subtrees print their class lines in pre-order, one subtree after another |
| Printer.OutputPreOrder | src/main/java/org/apache/maven/plugin/surefire/report/ActualTreePrinter.java:28-32 | print() prints one class line per node of the first branch's subtree, in pre-order |
| Printer.ActualTreePrinter.constructor | src/main/java/org/apache/maven/plugin/surefire/report/ActualTreePrinter.java:21-26 | keeps the tree and options, with nothing printed yet |
| Printer.ActualTreePrinter.Print | src/main/java/org/apache/maven/plugin/surefire/report/ActualTreePrinter.java:28-32 | logs Output (optional blank line, then the first branch's subtree) and then clears ROOT |
| Printer.ActualTreePrinter.PrintNode | src/main/java/org/apache/maven/plugin/surefire/report/ActualTreePrinter.java:34-38 | logs exactly RenderNode of the node |
| Printer.ActualTreePrinter.PrintEntries | src/main/java/org/apache/maven/plugin/surefire/report/ActualTreePrinter.java:36 | logs the entries' lines in list order |
| Printer.ActualTreePrinter.PrintBranches | src/main/java/org/apache/maven/plugin/surefire/report/ActualTreePrinter.java:37 | logs the children's subtrees in list order |
| Printer.ActualTreePrinter.PrintClass | src/main/java/org/apache/maven/plugin/surefire/report/ActualTreePrinter.java:112-136 | logs the class line: ClassPrefix, the cleaned name and the elapsed time |
| Printer.ActualTreePrinter.GetClassPrefix | src/main/java/org/apache/maven/plugin/surefire/report/ActualTreePrinter.java:113-130 | the glyph-by-glyph loop builds exactly ClassPrefix |
| Printer.ActualTreePrinter.GetTestPrefix | src/main/java/org/apache/maven/plugin/surefire/report/ActualTreePrinter.java:84-106 | the glyph-by-glyph loop builds exactly TestPrefix |
| Printer.ActualTreePrinter.PrintTestFormated | src/main/java/org/apache/maven/plugin/surefire/report/ActualTreePrinter.java:40-49 | logs the entry's result line by status (none for a hidden success), then its details |

## Left out

- Concurrency. The `ConcurrentHashMap` registries and the atomicity of register, append and readiness checks across threads are not modelled. Events are processed one at a time, and the static singletons are fields of one explicit `Shared` object.
- Styling and themes:
  - ANSI styling through `MessageBuilder` (`success`, `failure`, `warning`, `strong`) is not modelled;
  - `Theme` glyph strings are abstract `Glyph` values;
  - `ConsoleLogger.info` is an append to `log`.
- External text:
  - `TextFormatter.abbreviateName` is taken as the identity;
  - `elapsedTimeAsString` is an opaque string field of an entry;
  - `getReportNameWithGroup` is an opaque string field of an entry.
- Replaying captured stdout/stderr bytes (`ActualTreePrinter.java:199-215`) is one `ReplayLine` value. The swallowed `IOException` has no counterpart.
- `TreePrinter.java:43` calls `printAndRemoveChild()`, which `ActualTreePrinter` does not define. That code is not part of this model, so the handler's `Printed(node)` outcome and the printer's `Print` are not wired together.
- Object identity. `List.indexOf` on results uses identity, since `WrappedReportEntry` defines no `equals`. The model compares results as values.
  - LastTestByPosition: assumes the node's results are distinct values.
  - TestPrefixEnd: assumes the same.
- Whitespace. `isBlank` is taken over ASCII whitespace only.
- Printer.StripParentName: lengths count Unicode characters, while Java's `length()` and `substring` count UTF-16 code units. The two differ for characters outside the Basic Multilingual Plane: with the parent name "😀" and the own name "abc", Java keeps "" and the model keeps "c", and the crash boundary moves too. Names are modelled as `seq<char>`, which has no UTF-16 view.
- getStackTrace(false) is called twice in `printStackTrace`. Both calls are taken to return the same text.
- Renderer crashes are preconditions, not error outcomes. The renderer would throw in these cases:
  - a missing class summary;
  - a nested name shorter than its parent's summary name;
  - a printed tree without branches.
  - Printer.ActualTreePrinter.Print: requires `Renderable` and a first branch for these reasons.
  - Printer.ActualTreePrinter.PrintClass: requires `ClassLineOk` for these reasons.
- NodeTree.Lookup: requires a non-empty path. `getBranchNode(node, path)` checks for a one-segment path first and otherwise calls `get(0)` (`Node.java:106-109`), which throws on an empty list. No caller passes one, since a split name always has at least one segment.
- The timing assertion in `NodeTest.lookupPerformance_withManyBranches` checks wall-clock time, not behaviour.
