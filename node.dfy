/**
 * The report tree (Node.java). Every Node object lives in a node table owned
 * by one Tree object; a NodeId is a node's index in that table, and stands for
 * a reference to the Java object. The singleton ROOT is entry 0. A node keeps
 * its children twice, as the insertion-ordered `branches` list and as the
 * name-keyed `branchMap`, and points back to its parent.
 *
 * Nodes are only ever appended to the table, so a node's id is larger than its
 * parent's; removing a branch detaches it but leaves its record in the table,
 * as a detached Java object keeps its fields.
 */
module NodeTree {
  import opened Wrappers
  import opened Report
  import ClassPath

  type NodeId = nat

  /** The fields of one Node. */
  datatype NodeRec = NodeRec(
    name: string,
    depth: nat,
    parent: Option<NodeId>,
    branches: seq<NodeId>,
    branchMap: map<string, NodeId>,
    entries: seq<Entry>,            // wrappedReportEntries
    classEntry: Option<Entry>)      // classReportEntry

  const RootId: NodeId := 0
  const RootName: string := "ROOT"

  /** `new Node("ROOT", 0)`: the sentinel root, at depth 0, without parent. */
  function RootRec(): NodeRec {
    NodeRec(RootName, 0, None, [], map[], [], None)
  }

  /** The root is the only node without a parent; every other node is one level below its parent. */
  ghost predicate ParentOk(t: seq<NodeRec>, i: nat)
    requires i < |t|
  {
    if i == RootId then t[i].name == RootName && t[i].depth == 0 && t[i].parent == None
    else t[i].parent.Some? && t[i].parent.value < i && t[i].depth == t[t[i].parent.value].depth + 1
  }

  /**
   * The children of node i: they point back to i, their names are unique, and
   * the keys of branchMap are exactly their names, each mapped to its child.
   */
  ghost predicate BranchesOk(t: seq<NodeRec>, i: nat)
    requires i < |t|
  {
    var br := t[i].branches;
    var m := t[i].branchMap;
    && (forall k | 0 <= k < |br| :: i < br[k] < |t| && t[br[k]].parent == Some(i))
    && (forall k, l | 0 <= k < l < |br| :: t[br[k]].name != t[br[l]].name)
    && (forall k | 0 <= k < |br| :: t[br[k]].name in m && m[t[br[k]].name] == br[k])
    && (forall nm | nm in m :: m[nm] < |t| && m[nm] in br && t[m[nm]].name == nm)
  }

  ghost predicate WellFormed(t: seq<NodeRec>)
  {
    && |t| > 0
    && (forall i | 0 <= i < |t| :: ParentOk(t, i))
    && (forall i | 0 <= i < |t| :: BranchesOk(t, i))
  }

  lemma WellFormedAt(t: seq<NodeRec>, i: nat)
    requires WellFormed(t) && i < |t|
    ensures ParentOk(t, i) && BranchesOk(t, i)
  {
  }

  // ---------------------------------------------------------------- queries

  /** hasBranches(). */
  predicate HasBranches(t: seq<NodeRec>, n: NodeId)
    requires n < |t|
  {
    |t[n].branches| > 0
  }

  /** The names of a node's children, in branch order. */
  function BranchNames(t: seq<NodeRec>, n: NodeId): (names: seq<string>)
    requires WellFormed(t) && n < |t|
    ensures |names| == |t[n].branches|
    ensures forall k | 0 <= k < |names| :: t[n].branches[k] < |t| && names[k] == t[t[n].branches[k]].name
  {
    WellFormedAt(t, n);
    seq(|t[n].branches|, k requires 0 <= k < |t[n].branches| => t[t[n].branches[k]].name)
  }

  /** containsBranch(name): a membership test on branchMap. */
  predicate ContainsBranch(t: seq<NodeRec>, n: NodeId, nm: string)
    requires WellFormed(t) && n < |t|
    ensures ContainsBranch(t, n, nm) <==> nm in BranchNames(t, n)
  {
    WellFormedAt(t, n);
    var names := BranchNames(t, n);
    if nm in t[n].branchMap then
      var k :| 0 <= k < |t[n].branches| && t[n].branches[k] == t[n].branchMap[nm];
      assert names[k] == nm;
      true
    else
      false
  }

  /** getBranchNode(name): the child with that name, looked up in branchMap. */
  function BranchNode(t: seq<NodeRec>, n: NodeId, nm: string): (r: Option<NodeId>)
    requires WellFormed(t) && n < |t|
    ensures r.Some? ==> r.value < |t| && r.value in t[n].branches
                        && t[r.value].name == nm && t[r.value].parent == Some(n)
    ensures r.None? <==> nm !in BranchNames(t, n)
  {
    WellFormedAt(t, n);
    if ContainsBranch(t, n, nm) then
      var c := t[n].branchMap[nm];
      var k :| 0 <= k < |t[n].branches| && t[n].branches[k] == c;
      Some(c)
    else None
  }

  /**
   * getBranchNode(node, path): follows the path one name at a time. A
   * one-segment path is answered by the node itself; any other path reads
   * its first segment, which throws on an empty path, so an empty path is an
   * error for its callers.
   */
  function Lookup(t: seq<NodeRec>, n: NodeId, path: seq<string>): (r: Option<NodeId>)
    requires WellFormed(t) && n < |t| && |path| > 0
    ensures r.Some? ==> r.value < |t|
    decreases |path|
  {
    var c := BranchNode(t, n, path[0]);
    if |path| == 1 then c
    else if c.Some? then Lookup(t, c.value, path[1..])
    else None
  }

  /** The parent chain of a node, nearest first, ending at the root. */
  function Ancestors(t: seq<NodeRec>, n: NodeId): (anc: seq<NodeId>)
    requires WellFormed(t) && n < |t|
    ensures forall j | 0 <= j < |anc| :: anc[j] < n
    decreases n
  {
    WellFormedAt(t, n);
    match t[n].parent
    case None => []
    case Some(p) => [p] + Ancestors(t, p)
  }

  /** getParent(name): the nearest strict ancestor with that name. */
  function GetParent(t: seq<NodeRec>, n: NodeId, nm: string): (r: Option<NodeId>)
    requires WellFormed(t) && n < |t|
    ensures r.Some? ==> r.value < n
    decreases n
  {
    WellFormedAt(t, n);
    match t[n].parent
    case None => None
    case Some(p) => if t[p].name == nm then Some(p) else GetParent(t, p, nm)
  }

  // ------------------------------------------------------- state transitions

  /**
   * The table grows by appending only: existing nodes keep their name, depth,
   * parent, entries and every child they had, in the same order.
   */
  ghost predicate Extends(t: seq<NodeRec>, u: seq<NodeRec>)
  {
    && |t| <= |u|
    && forall i | 0 <= i < |t| ::
         && u[i].name == t[i].name && u[i].depth == t[i].depth && u[i].parent == t[i].parent
         && t[i].branches <= u[i].branches
         && (forall nm | nm in t[i].branchMap :: nm in u[i].branchMap && u[i].branchMap[nm] == t[i].branchMap[nm])
         && u[i].entries == t[i].entries && u[i].classEntry == t[i].classEntry
  }

  lemma ExtendsTrans(t: seq<NodeRec>, u: seq<NodeRec>, v: seq<NodeRec>)
    requires Extends(t, u) && Extends(u, v)
    ensures Extends(t, v)
  {
  }

  /** generateBranch(name): a new child, one level deeper, appended to both collections. */
  function Generate(t: seq<NodeRec>, n: NodeId, nm: string): (res: (seq<NodeRec>, NodeId))
    requires WellFormed(t) && n < |t| && nm !in t[n].branchMap
    ensures WellFormed(res.0) && Extends(t, res.0)
    ensures res.1 == |t| && |res.0| == |t| + 1
    ensures res.0[res.1] == NodeRec(nm, t[n].depth + 1, Some(n), [], map[], [], None)
    ensures res.0[n].branches == t[n].branches + [res.1]
    ensures res.0[n].branchMap == t[n].branchMap[nm := res.1]
    ensures forall i | 0 <= i < |t| && i != n :: res.0[i] == t[i]
  {
    var c := |t|;
    var rec := t[n].(branches := t[n].branches + [c], branchMap := t[n].branchMap[nm := c]);
    var u := t[n := rec] + [NodeRec(nm, t[n].depth + 1, Some(n), [], map[], [], None)];
    GenerateWellFormed(t, n, nm, u);
    (u, c)
  }

  lemma GenerateWellFormed(t: seq<NodeRec>, n: NodeId, nm: string, u: seq<NodeRec>)
    requires WellFormed(t) && n < |t| && nm !in t[n].branchMap
    requires u == t[n := t[n].(branches := t[n].branches + [|t|], branchMap := t[n].branchMap[nm := |t|])]
                  + [NodeRec(nm, t[n].depth + 1, Some(n), [], map[], [], None)]
    ensures WellFormed(u)
  {
    GenerateParentsOk(t, n, nm, u);
    GenerateOthersOk(t, n, nm, u);
    GenerateBranchesOk(t, n, nm, u);
    assert BranchesOk(u, |t|);
  }

  lemma GenerateParentsOk(t: seq<NodeRec>, n: NodeId, nm: string, u: seq<NodeRec>)
    requires WellFormed(t) && n < |t|
    requires u == t[n := t[n].(branches := t[n].branches + [|t|], branchMap := t[n].branchMap[nm := |t|])]
                  + [NodeRec(nm, t[n].depth + 1, Some(n), [], map[], [], None)]
    ensures forall i | 0 <= i < |u| :: ParentOk(u, i)
  {
    forall i | 0 <= i < |u|
      ensures ParentOk(u, i)
    {
      if i < |t| {
        WellFormedAt(t, i);
        assert u[i].name == t[i].name && u[i].depth == t[i].depth && u[i].parent == t[i].parent;
        if i != RootId {
          var q := t[i].parent.value;
          assert u[q].depth == t[q].depth;
        }
      }
    }
  }

  lemma GenerateOthersOk(t: seq<NodeRec>, n: NodeId, nm: string, u: seq<NodeRec>)
    requires WellFormed(t) && n < |t|
    requires u == t[n := t[n].(branches := t[n].branches + [|t|], branchMap := t[n].branchMap[nm := |t|])]
                  + [NodeRec(nm, t[n].depth + 1, Some(n), [], map[], [], None)]
    ensures forall i | 0 <= i < |t| && i != n :: BranchesOk(u, i)
  {
    assert forall x | 0 <= x < |t| :: u[x].name == t[x].name && u[x].parent == t[x].parent;
    forall i | 0 <= i < |t| && i != n
      ensures BranchesOk(u, i)
    {
      WellFormedAt(t, i);
      assert u[i] == t[i];
    }
  }

  /** The hypotheses of appending a child named nm, with id |t|, to node n. */
  ghost predicate Generated(t: seq<NodeRec>, n: NodeId, nm: string, u: seq<NodeRec>)
  {
    && WellFormed(t) && n < |t| && nm !in t[n].branchMap && |u| == |t| + 1
    && (forall x | 0 <= x < |t| :: u[x].name == t[x].name && u[x].parent == t[x].parent)
    && u[|t|].name == nm && u[|t|].parent == Some(n)
    && u[n].branches == t[n].branches + [|t|]
    && u[n].branchMap == t[n].branchMap[nm := |t|]
  }

  lemma GenerateBranchesOk(t: seq<NodeRec>, n: NodeId, nm: string, u: seq<NodeRec>)
    requires WellFormed(t) && n < |t| && nm !in t[n].branchMap
    requires u == t[n := t[n].(branches := t[n].branches + [|t|], branchMap := t[n].branchMap[nm := |t|])]
                  + [NodeRec(nm, t[n].depth + 1, Some(n), [], map[], [], None)]
    ensures BranchesOk(u, n)
  {
    assert Generated(t, n, nm, u);
    GenBounds(t, n, nm, u);
    GenUnique(t, n, nm, u);
    GenKeys(t, n, nm, u);
    GenMap(t, n, nm, u);
  }

  lemma GenBounds(t: seq<NodeRec>, n: NodeId, nm: string, u: seq<NodeRec>)
    requires Generated(t, n, nm, u)
    ensures forall j | 0 <= j < |u[n].branches| :: n < u[n].branches[j] < |u| && u[u[n].branches[j]].parent == Some(n)
  {
    WellFormedAt(t, n);
    var br := t[n].branches;
    forall j | 0 <= j < |u[n].branches|
      ensures n < u[n].branches[j] < |u| && u[u[n].branches[j]].parent == Some(n)
    {
      if j < |br| { assert u[n].branches[j] == br[j]; }
    }
  }

  /** No existing child of n is named nm. */
  lemma GenFresh(t: seq<NodeRec>, n: NodeId, nm: string, u: seq<NodeRec>)
    requires Generated(t, n, nm, u)
    ensures forall j | 0 <= j < |t[n].branches| :: t[n].branches[j] < |t| && t[t[n].branches[j]].name != nm
  {
    WellFormedAt(t, n);
  }

  lemma GenUnique(t: seq<NodeRec>, n: NodeId, nm: string, u: seq<NodeRec>)
    requires Generated(t, n, nm, u)
    requires forall j | 0 <= j < |u[n].branches| :: u[n].branches[j] < |u|
    ensures forall j, l | 0 <= j < l < |u[n].branches| :: u[u[n].branches[j]].name != u[u[n].branches[l]].name
  {
    WellFormedAt(t, n);
    GenFresh(t, n, nm, u);
    var br := t[n].branches;
    forall j, l | 0 <= j < l < |u[n].branches|
      ensures u[u[n].branches[j]].name != u[u[n].branches[l]].name
    {
      assert u[n].branches[j] == br[j];
      if l < |br| { assert u[n].branches[l] == br[l]; }
    }
  }

  lemma GenKeys(t: seq<NodeRec>, n: NodeId, nm: string, u: seq<NodeRec>)
    requires Generated(t, n, nm, u)
    requires forall j | 0 <= j < |u[n].branches| :: u[n].branches[j] < |u|
    ensures forall j | 0 <= j < |u[n].branches| ::
              u[u[n].branches[j]].name in u[n].branchMap && u[n].branchMap[u[u[n].branches[j]].name] == u[n].branches[j]
  {
    WellFormedAt(t, n);
    GenFresh(t, n, nm, u);
    var br := t[n].branches;
    forall j | 0 <= j < |u[n].branches|
      ensures u[u[n].branches[j]].name in u[n].branchMap && u[n].branchMap[u[u[n].branches[j]].name] == u[n].branches[j]
    {
      if j < |br| { assert u[n].branches[j] == br[j]; }
    }
  }

  lemma GenMap(t: seq<NodeRec>, n: NodeId, nm: string, u: seq<NodeRec>)
    requires Generated(t, n, nm, u)
    ensures forall nm' | nm' in u[n].branchMap :: u[n].branchMap[nm'] < |u|
    ensures forall nm' | nm' in u[n].branchMap ::
              u[n].branchMap[nm'] in u[n].branches && u[u[n].branchMap[nm']].name == nm'
  {
    WellFormedAt(t, n);
    var br := t[n].branches;
    var m := t[n].branchMap;
    var ubr := u[n].branches;
    forall nm' | nm' in u[n].branchMap
      ensures u[n].branchMap[nm'] < |u| && u[n].branchMap[nm'] in ubr
    {
      if nm' != nm {
        var k :| 0 <= k < |br| && br[k] == m[nm'];
        assert ubr[k] == m[nm'];
      } else {
        assert ubr[|br|] == |t|;
      }
    }
  }

  /**
   * addChildren(path): walks the path from node n, reusing the child with the
   * next name when there is one and generating it otherwise; returns the node
   * at the end of the path.
   */
  function Insert(t: seq<NodeRec>, n: NodeId, path: seq<string>): (res: (seq<NodeRec>, NodeId))
    requires WellFormed(t) && n < |t|
    ensures WellFormed(res.0) && Extends(t, res.0) && res.1 < |res.0|
    ensures |path| == 0 ==> res == (t, n)
    decreases |path|
  {
    if |path| == 0 then (t, n)
    else
      match BranchNode(t, n, path[0])
      case Some(c) => Insert(t, c, path[1..])
      case None =>
        var g := Generate(t, n, path[0]);
        var res := Insert(g.0, g.1, path[1..]);
        ExtendsTrans(t, g.0, res.0);
        res
  }

  /**
   * List.remove(Object), where Node.equals compares names only: drops the
   * first branch named nm.
   */
  function RemoveFirstNamed(t: seq<NodeRec>, br: seq<NodeId>, nm: string): (r: seq<NodeId>)
    requires forall k | 0 <= k < |br| :: br[k] < |t|
    ensures forall x :: x in r ==> x in br
  {
    if |br| == 0 then []
    else if t[br[0]].name == nm then br[1..]
    else [br[0]] + RemoveFirstNamed(t, br[1..], nm)
  }

  /** The position of the first branch named nm, or |br| when there is none. */
  function IndexOfName(t: seq<NodeRec>, br: seq<NodeId>, nm: string): (k: nat)
    requires forall k | 0 <= k < |br| :: br[k] < |t|
    ensures k <= |br|
    ensures k < |br| ==> t[br[k]].name == nm
    ensures forall j | 0 <= j < k :: t[br[j]].name != nm
  {
    if |br| == 0 then 0
    else if t[br[0]].name == nm then 0
    else 1 + IndexOfName(t, br[1..], nm)
  }

  lemma {:induction false} RemoveFirstNamedSplices(t: seq<NodeRec>, br: seq<NodeId>, nm: string)
    requires forall k | 0 <= k < |br| :: br[k] < |t|
    ensures var k := IndexOfName(t, br, nm);
            RemoveFirstNamed(t, br, nm) == if k < |br| then br[..k] + br[k + 1..] else br
  {
    if |br| == 0 {
    } else if t[br[0]].name == nm {
      RemoveFirstNamedSplicesHead(t, br, nm);
    } else {
      RemoveFirstNamedSplices(t, br[1..], nm);
      RemoveFirstNamedSplicesStep(t, br, nm);
    }
  }

  /** The base case: a first branch with the name is the one dropped. */
  lemma RemoveFirstNamedSplicesHead(t: seq<NodeRec>, br: seq<NodeId>, nm: string)
    requires forall k | 0 <= k < |br| :: br[k] < |t|
    requires |br| > 0 && t[br[0]].name == nm
    ensures var k := IndexOfName(t, br, nm);
            RemoveFirstNamed(t, br, nm) == if k < |br| then br[..k] + br[k + 1..] else br
  {
    assert IndexOfName(t, br, nm) == 0;
    assert br[..0] + br[1..] == br[1..];
  }

  /** The step case: a first branch with another name stays in front of the tail's splice. */
  lemma RemoveFirstNamedSplicesStep(t: seq<NodeRec>, br: seq<NodeId>, nm: string)
    requires forall k | 0 <= k < |br| :: br[k] < |t|
    requires |br| > 0 && t[br[0]].name != nm
    requires var k := IndexOfName(t, br[1..], nm);
             RemoveFirstNamed(t, br[1..], nm) == if k < |br[1..]| then br[1..][..k] + br[1..][k + 1..] else br[1..]
    ensures var k := IndexOfName(t, br, nm);
            RemoveFirstNamed(t, br, nm) == if k < |br| then br[..k] + br[k + 1..] else br
  {
    var k := IndexOfName(t, br[1..], nm);
    var rest := RemoveFirstNamed(t, br[1..], nm);
    assert RemoveFirstNamed(t, br, nm) == [br[0]] + rest;
    assert IndexOfName(t, br, nm) == k + 1;
    SpliceCons(br, rest, k);
  }

  /** Splicing position k + 1 out of br is splicing k out of its tail, behind br[0]. */
  lemma SpliceCons(br: seq<NodeId>, rest: seq<NodeId>, k: nat)
    requires 0 < |br| && k < |br|
    requires rest == if k < |br| - 1 then br[1..][..k] + br[1..][k + 1..] else br[1..]
    ensures [br[0]] + rest == if k + 1 < |br| then br[..k + 1] + br[k + 2..] else br
  {
    if k + 1 < |br| {
      assert br[1..][..k] == br[1..k + 1];
      assert br[1..][k + 1..] == br[k + 2..];
      assert [br[0]] + br[1..k + 1] == br[..k + 1];
    } else {
      assert [br[0]] + br[1..] == br;
    }
  }

  /**
   * removeBranch(branch): removes the first child equal to `branch` (that is,
   * with its name) from `branches`, and its name from `branchMap`.
   */
  function Remove(t: seq<NodeRec>, p: NodeId, b: NodeId): (u: seq<NodeRec>)
    requires WellFormed(t) && p < |t| && b < |t|
    ensures WellFormed(u) && |u| == |t|
    ensures forall i | 0 <= i < |t| && i != p :: u[i] == t[i]
    ensures u[p].name == t[p].name && u[p].entries == t[p].entries && u[p].classEntry == t[p].classEntry
    ensures u[p].depth == t[p].depth && u[p].parent == t[p].parent
  {
    WellFormedAt(t, p);
    var nm := t[b].name;
    var u := t[p := t[p].(branches := RemoveFirstNamed(t, t[p].branches, nm),
                          branchMap := t[p].branchMap - {nm})];
    RemoveWellFormed(t, p, nm, u);
    u
  }

  /**
   * A table in which only node p's children changed, and node p's new
   * children are consistent, is well formed.
   */
  lemma UpdateOneWellFormed(t: seq<NodeRec>, u: seq<NodeRec>, p: NodeId)
    requires WellFormed(t) && |u| == |t| && p < |t|
    requires forall x | 0 <= x < |t| ::
               u[x].name == t[x].name && u[x].depth == t[x].depth && u[x].parent == t[x].parent
    requires forall x | 0 <= x < |t| && x != p ::
               u[x].branches == t[x].branches && u[x].branchMap == t[x].branchMap
    requires BranchesOk(u, p)
    ensures WellFormed(u)
  {
    forall i | 0 <= i < |u|
      ensures ParentOk(u, i) && BranchesOk(u, i)
    {
      WellFormedAt(t, i);
    }
  }

  lemma RemoveWellFormed(t: seq<NodeRec>, p: NodeId, nm: string, u: seq<NodeRec>)
    requires WellFormed(t) && p < |t|
    requires forall k | 0 <= k < |t[p].branches| :: t[p].branches[k] < |t|
    requires u == t[p := t[p].(branches := RemoveFirstNamed(t, t[p].branches, nm),
                               branchMap := t[p].branchMap - {nm})]
    ensures WellFormed(u)
  {
    var br := t[p].branches;
    RemoveFirstNamedSplices(t, br, nm);
    var k := IndexOfName(t, br, nm);
    if k < |br| {
      RemoveFoundWellFormed(t, p, nm, k, u);
    } else {
      RemoveAbsentNoop(t, p, nm);
      assert t[p].branchMap - {nm} == t[p].branchMap;
      assert u[p] == t[p];
      assert u == t;
    }
  }

  lemma RemoveFoundWellFormed(t: seq<NodeRec>, p: NodeId, nm: string, k: nat, u: seq<NodeRec>)
    requires WellFormed(t) && p < |t| && k < |t[p].branches| && t[p].branches[k] < |t|
    requires t[t[p].branches[k]].name == nm
    requires u == t[p := t[p].(branches := t[p].branches[..k] + t[p].branches[k + 1..],
                               branchMap := t[p].branchMap - {nm})]
    ensures WellFormed(u)
  {
    assert Spliced(t, p, nm, k, u);
    SpliceBranchesOk(t, p, nm, k, u);
    UpdateOneWellFormed(t, u, p);
  }

  /** Removing a name that no child of p carries changes nothing. */
  lemma RemoveAbsentNoop(t: seq<NodeRec>, p: NodeId, nm: string)
    requires WellFormed(t) && p < |t|
    requires forall k | 0 <= k < |t[p].branches| :: t[p].branches[k] < |t|
    requires IndexOfName(t, t[p].branches, nm) >= |t[p].branches|
    ensures nm !in t[p].branchMap
  {
    WellFormedAt(t, p);
  }

  /** The hypotheses of cutting the child at position k, named nm, out of node p. */
  ghost predicate Spliced(t: seq<NodeRec>, p: NodeId, nm: string, k: nat, u: seq<NodeRec>)
  {
    && WellFormed(t) && p < |t| && |u| == |t|
    && k < |t[p].branches| && t[p].branches[k] < |t| && t[t[p].branches[k]].name == nm
    && (forall x | 0 <= x < |t| :: u[x].name == t[x].name && u[x].parent == t[x].parent)
    && u[p].branches == t[p].branches[..k] + t[p].branches[k + 1..]
    && u[p].branchMap == t[p].branchMap - {nm}
  }

  lemma SpliceAt(t: seq<NodeRec>, p: NodeId, nm: string, k: nat, u: seq<NodeRec>, j: nat)
    requires Spliced(t, p, nm, k, u) && j < |u[p].branches|
    ensures var j' := if j < k then j else j + 1;
            j' < |t[p].branches| && j' != k && u[p].branches[j] == t[p].branches[j']
  {
  }

  /** Node p's children stay consistent when the child at position k, named nm, is cut out. */
  lemma SpliceBranchesOk(t: seq<NodeRec>, p: NodeId, nm: string, k: nat, u: seq<NodeRec>)
    requires Spliced(t, p, nm, k, u)
    ensures BranchesOk(u, p)
  {
    SpliceBounds(t, p, nm, k, u);
    SpliceUnique(t, p, nm, k, u);
    SpliceKeys(t, p, nm, k, u);
    SpliceMap(t, p, nm, k, u);
  }

  lemma SpliceBounds(t: seq<NodeRec>, p: NodeId, nm: string, k: nat, u: seq<NodeRec>)
    requires Spliced(t, p, nm, k, u)
    ensures forall j | 0 <= j < |u[p].branches| :: p < u[p].branches[j] < |u| && u[u[p].branches[j]].parent == Some(p)
  {
    forall j | 0 <= j < |u[p].branches|
      ensures p < u[p].branches[j] < |u| && u[u[p].branches[j]].parent == Some(p)
    {
      SpliceAt(t, p, nm, k, u, j);
      WellFormedAt(t, p);
    }
  }

  lemma SpliceUnique(t: seq<NodeRec>, p: NodeId, nm: string, k: nat, u: seq<NodeRec>)
    requires Spliced(t, p, nm, k, u)
    requires forall j | 0 <= j < |u[p].branches| :: u[p].branches[j] < |u|
    ensures forall j, l | 0 <= j < l < |u[p].branches| :: u[u[p].branches[j]].name != u[u[p].branches[l]].name
  {
    forall j, l | 0 <= j < l < |u[p].branches|
      ensures u[u[p].branches[j]].name != u[u[p].branches[l]].name
    {
      SpliceAt(t, p, nm, k, u, j);
      SpliceAt(t, p, nm, k, u, l);
      WellFormedAt(t, p);
      var j' := if j < k then j else j + 1;
      var l' := if l < k then l else l + 1;
      assert j' < l';
    }
  }

  lemma SpliceKeys(t: seq<NodeRec>, p: NodeId, nm: string, k: nat, u: seq<NodeRec>)
    requires Spliced(t, p, nm, k, u)
    requires forall j | 0 <= j < |u[p].branches| :: u[p].branches[j] < |u|
    ensures forall j | 0 <= j < |u[p].branches| ::
              u[u[p].branches[j]].name in u[p].branchMap && u[p].branchMap[u[u[p].branches[j]].name] == u[p].branches[j]
  {
    forall j | 0 <= j < |u[p].branches|
      ensures u[u[p].branches[j]].name in u[p].branchMap && u[p].branchMap[u[u[p].branches[j]].name] == u[p].branches[j]
    {
      SpliceAt(t, p, nm, k, u, j);
      WellFormedAt(t, p);
    }
  }

  lemma SpliceMap(t: seq<NodeRec>, p: NodeId, nm: string, k: nat, u: seq<NodeRec>)
    requires Spliced(t, p, nm, k, u)
    ensures forall nm' | nm' in u[p].branchMap :: u[p].branchMap[nm'] < |u|
    ensures forall nm' | nm' in u[p].branchMap ::
              u[p].branchMap[nm'] in u[p].branches && u[u[p].branchMap[nm']].name == nm'
  {
    WellFormedAt(t, p);
    var br := t[p].branches;
    var m := t[p].branchMap;
    forall nm' | nm' in u[p].branchMap
      ensures u[p].branchMap[nm'] < |u| && u[p].branchMap[nm'] in u[p].branches
    {
      var x := m[nm'];
      var j :| 0 <= j < |br| && br[j] == x;
      assert j != k;
      var j' := if j < k then j else j - 1;
      SpliceAt(t, p, nm, k, u, j');
    }
  }

  /** clearTree(): empties ROOT's branches and branchMap; nothing else changes. */
  function Clear(t: seq<NodeRec>): (u: seq<NodeRec>)
    requires WellFormed(t)
    ensures WellFormed(u) && |u| == |t|
    ensures !HasBranches(u, RootId)
    ensures forall nm :: !ContainsBranch(u, RootId, nm) && BranchNode(u, RootId, nm) == None
    ensures u[RootId].name == RootName && u[RootId].entries == t[RootId].entries
    ensures u[RootId].classEntry == t[RootId].classEntry
    ensures forall i | 0 < i < |t| :: u[i] == t[i]
  {
    WellFormedAt(t, RootId);
    var u := t[RootId := t[RootId].(branches := [], branchMap := map[])];
    UpdateOneWellFormed(t, u, RootId);
    u
  }

  /** Two tables that differ only in the entries attached to nodes. */
  ghost predicate SameShape(t: seq<NodeRec>, u: seq<NodeRec>)
  {
    && |t| == |u|
    && forall i | 0 <= i < |t| ::
         && u[i].name == t[i].name && u[i].depth == t[i].depth && u[i].parent == t[i].parent
         && u[i].branches == t[i].branches && u[i].branchMap == t[i].branchMap
  }

  lemma SameShapeWellFormed(t: seq<NodeRec>, u: seq<NodeRec>)
    requires WellFormed(t) && SameShape(t, u)
    ensures WellFormed(u)
  {
    forall i | 0 <= i < |u| ensures ParentOk(u, i) && BranchesOk(u, i) { WellFormedAt(t, i); }
  }

  /** `node.wrappedReportEntries.add(entry)`. */
  function AppendEntry(t: seq<NodeRec>, n: NodeId, e: Entry): (u: seq<NodeRec>)
    requires WellFormed(t) && n < |t|
    ensures WellFormed(u) && SameShape(t, u)
    ensures u[n].entries == t[n].entries + [e] && u[n].classEntry == t[n].classEntry
    ensures forall i | 0 <= i < |t| && i != n :: u[i] == t[i]
  {
    var u := t[n := t[n].(entries := t[n].entries + [e])];
    SameShapeWellFormed(t, u);
    u
  }

  /** setClassReportEntry(entry). */
  function SetClassEntry(t: seq<NodeRec>, n: NodeId, e: Entry): (u: seq<NodeRec>)
    requires WellFormed(t) && n < |t|
    ensures WellFormed(u) && SameShape(t, u)
    ensures u[n].classEntry == Some(e) && u[n].entries == t[n].entries
    ensures forall i | 0 <= i < |t| && i != n :: u[i] == t[i]
  {
    var u := t[n := t[n].(classEntry := Some(e))];
    SameShapeWellFormed(t, u);
    u
  }

  // ------------------------------------------------------------- properties

  /** A node's named child survives any extension of the table. */
  lemma ExtendsBranchNode(t: seq<NodeRec>, u: seq<NodeRec>, n: NodeId, nm: string)
    requires WellFormed(t) && WellFormed(u) && Extends(t, u) && n < |t|
    requires BranchNode(t, n, nm).Some?
    ensures BranchNode(u, n, nm) == BranchNode(t, n, nm)
  {
    WellFormedAt(t, n);
    WellFormedAt(u, n);
    assert nm in t[n].branchMap;
  }

  /**
   * addChildren(path) on a non-empty path returns the node found at that path
   * afterwards; it is named after the last segment and lies |path| levels
   * below the start.
   */
  lemma {:induction false} InsertEnd(t: seq<NodeRec>, n: NodeId, path: seq<string>)
    requires WellFormed(t) && n < |t| && |path| > 0
    ensures var res := Insert(t, n, path);
            && Lookup(res.0, n, path) == Some(res.1)
            && res.0[res.1].name == path[|path| - 1]
            && res.0[res.1].depth == t[n].depth + |path|
    decreases |path|
  {
    match BranchNode(t, n, path[0])
    case Some(c) =>
      WellFormedAt(t, c);
      InsertEndStep(t, t, n, c, path);
    case None =>
      var gen := Generate(t, n, path[0]);
      WellFormedAt(gen.0, gen.1);
      InsertEndStep(t, gen.0, n, gen.1, path);
  }

  /**
   * The node addChildren(path) returns hangs below the node the path without
   * its last segment leads to, which carries the second-to-last name; a
   * one-segment path hangs it below the start node.
   */
  lemma InsertEndParent(t: seq<NodeRec>, n: NodeId, path: seq<string>)
    requires WellFormed(t) && n < |t| && |path| > 0
    ensures var res := Insert(t, n, path);
            && (|path| == 1 ==> res.0[res.1].parent == Some(n))
            && (|path| > 1 ==>
                  var q := Lookup(res.0, n, path[..|path| - 1]);
                  q.Some? && res.0[res.1].parent == q && res.0[q.value].name == path[|path| - 2])
  {
    var res := Insert(t, n, path);
    InsertEnd(t, n, path);
    LookupParent(res.0, n, path, res.1);
  }

  /**
   * The node a path leads to hangs below the node its path without the last
   * segment leads to, which carries the second-to-last name.
   */
  lemma LookupParent(u: seq<NodeRec>, n: NodeId, path: seq<string>, y: NodeId)
    requires WellFormed(u) && n < |u| && |path| > 0 && Lookup(u, n, path) == Some(y)
    ensures y < |u|
    ensures |path| == 1 ==> u[y].parent == Some(n)
    ensures |path| > 1 ==>
              var q := Lookup(u, n, path[..|path| - 1]);
              q.Some? && u[y].parent == q && u[q.value].name == path[|path| - 2]
  {
    if |path| == 1 {
      assert path == [path[0]];
      LookupSingleParent(u, n, path[0], y);
    } else {
      LookupManyParent(u, n, path, y);
    }
  }

  lemma LookupManyParent(u: seq<NodeRec>, n: NodeId, path: seq<string>, y: NodeId)
    requires WellFormed(u) && n < |u| && |path| > 1 && Lookup(u, n, path) == Some(y)
    ensures y < |u|
    ensures var q := Lookup(u, n, path[..|path| - 1]);
            q.Some? && u[y].parent == q && u[q.value].name == path[|path| - 2]
  {
    var p, nm := path[..|path| - 1], path[|path| - 1];
    SplitLast(path);
    LookupSnocParent(u, n, p, nm, y);
    assert p[|p| - 1] == path[|path| - 2];
  }

  lemma SplitLast(path: seq<string>)
    requires |path| > 0
    ensures path[..|path| - 1] + [path[|path| - 1]] == path
  {
  }

  lemma LookupSingleParent(u: seq<NodeRec>, n: NodeId, nm: string, y: NodeId)
    requires WellFormed(u) && n < |u| && Lookup(u, n, [nm]) == Some(y)
    ensures y < |u| && u[y].parent == Some(n)
  {
    assert Lookup(u, n, [nm]) == BranchNode(u, n, nm);
  }

  lemma LookupSnocParent(u: seq<NodeRec>, n: NodeId, p: seq<string>, nm: string, y: NodeId)
    requires WellFormed(u) && n < |u| && |p| > 0 && Lookup(u, n, p + [nm]) == Some(y)
    ensures var q := Lookup(u, n, p);
            q.Some? && y < |u| && u[y].parent == q && u[q.value].name == p[|p| - 1]
  {
    LookupAppend(u, n, p, [nm]);
    var q := Lookup(u, n, p);
    assert q.Some?;
    LookupFound(u, n, p);
    assert Lookup(u, q.value, [nm]) == BranchNode(u, q.value, nm);
  }

  /** The inductive step of InsertEnd, once the first segment's child c of n exists in table g. */
  lemma {:induction false} InsertEndStep(t: seq<NodeRec>, g: seq<NodeRec>, n: NodeId, c: NodeId, path: seq<string>)
    requires WellFormed(t) && WellFormed(g) && Extends(t, g) && n < |t| && c < |g| && |path| > 0
    requires BranchNode(g, n, path[0]) == Some(c) && g[c].depth == t[n].depth + 1
    requires Insert(t, n, path) == Insert(g, c, path[1..])
    ensures var res := Insert(t, n, path);
            && Lookup(res.0, n, path) == Some(res.1)
            && res.0[res.1].name == path[|path| - 1]
            && res.0[res.1].depth == t[n].depth + |path|
    decreases |path|, 0
  {
    var rest := path[1..];
    var res := Insert(g, c, rest);
    if |rest| > 0 {
      InsertEnd(g, c, rest);
      ExtendsBranchNode(g, res.0, n, path[0]);
      assert rest[|rest| - 1] == path[|path| - 1];
      assert Lookup(res.0, n, path) == Lookup(res.0, c, rest);
    } else {
      assert res == (g, c);
      assert Lookup(g, n, path) == BranchNode(g, n, path[0]);
    }
  }

  /**
   * addChildren(path) touches no node created before the start node, and at
   * the start node it adds at most one child: the first segment, and only when
   * there was no child of that name.
   */
  lemma {:induction false} InsertFrame(t: seq<NodeRec>, n: NodeId, path: seq<string>)
    requires WellFormed(t) && n < |t|
    ensures forall i | 0 <= i < n :: Insert(t, n, path).0[i] == t[i]
    ensures |path| > 0 ==>
              Insert(t, n, path).0[n].branches ==
                if path[0] in t[n].branchMap then t[n].branches else t[n].branches + [|t|]
    ensures |path| > 0 ==>
              Insert(t, n, path).0[n].branchMap ==
                if path[0] in t[n].branchMap then t[n].branchMap else t[n].branchMap[path[0] := |t|]
    decreases |path|
  {
    if |path| > 0 {
      var rest := path[1..];
      WellFormedAt(t, n);
      match BranchNode(t, n, path[0])
      case Some(c) =>
        InsertFrame(t, c, rest);
      case None =>
        var gen := Generate(t, n, path[0]);
        InsertFrame(gen.0, gen.1, rest);
    }
  }

  /** Inserting a path that already exists changes nothing and returns the existing node. */
  lemma {:induction false} InsertExisting(t: seq<NodeRec>, n: NodeId, path: seq<string>)
    requires WellFormed(t) && n < |t| && |path| > 0 && Lookup(t, n, path).Some?
    ensures Insert(t, n, path) == (t, Lookup(t, n, path).value)
    decreases |path|
  {
    var c := BranchNode(t, n, path[0]).value;
    if |path| > 1 {
      InsertExisting(t, c, path[1..]);
    }
  }

  /** addChildren is idempotent: inserting the same path twice is inserting it once. */
  lemma InsertIdempotent(t: seq<NodeRec>, n: NodeId, path: seq<string>)
    requires WellFormed(t) && n < |t|
    ensures Insert(Insert(t, n, path).0, n, path) == Insert(t, n, path)
  {
    if |path| > 0 {
      var res := Insert(t, n, path);
      InsertEnd(t, n, path);
      InsertExisting(res.0, n, path);
    }
  }

  /**
   * Following p and then q is following p + q; in particular a lookup that
   * fails on a prefix fails on the whole path.
   */
  lemma {:induction false} LookupAppend(t: seq<NodeRec>, n: NodeId, p: seq<string>, q: seq<string>)
    requires WellFormed(t) && n < |t| && |p| > 0 && |q| > 0
    ensures Lookup(t, n, p + q) ==
              match Lookup(t, n, p)
              case None => None
              case Some(m) => Lookup(t, m, q)
    decreases |p|
  {
    assert (p + q)[0] == p[0];
    if |p| == 1 {
      assert (p + q)[1..] == q;
    } else {
      assert (p + q)[1..] == p[1..] + q;
      var c := BranchNode(t, n, p[0]);
      if c.Some? {
        LookupAppend(t, c.value, p[1..], q);
      }
    }
  }

  /** getBranchNode(path) is empty as soon as some prefix of the path is missing. */
  lemma LookupPartial(t: seq<NodeRec>, n: NodeId, path: seq<string>, k: nat)
    requires WellFormed(t) && n < |t| && 0 < k <= |path|
    requires Lookup(t, n, path[..k]) == None
    ensures Lookup(t, n, path) == None
  {
    if k < |path| {
      LookupAppend(t, n, path[..k], path[k..]);
      assert path[..k] + path[k..] == path;
    } else {
      assert path[..k] == path;
    }
  }

  /**
   * The node found at a path is named after its last segment, lies |path|
   * levels below the start, and the start node is its |path|-th ancestor.
   */
  lemma {:induction false} LookupFound(t: seq<NodeRec>, n: NodeId, path: seq<string>)
    requires WellFormed(t) && n < |t| && |path| > 0 && Lookup(t, n, path).Some?
    ensures var x := Lookup(t, n, path).value;
            && t[x].name == path[|path| - 1]
            && t[x].depth == t[n].depth + |path|
            && |path| <= |Ancestors(t, x)|
            && Ancestors(t, x)[|path| - 1..] == [n] + Ancestors(t, n)
    decreases |path|
  {
    var c := BranchNode(t, n, path[0]).value;
    WellFormedAt(t, c);
    assert Ancestors(t, c) == [n] + Ancestors(t, n);
    if |path| > 1 {
      LookupFound(t, c, path[1..]);
      var x := Lookup(t, n, path).value;
      var a := Ancestors(t, x);
      assert a[|path| - 1..] == a[|path| - 2..][1..];
    }
  }

  /** A node has as many ancestors as its depth, and the farthest one is ROOT. */
  lemma {:induction false} AncestorsDepth(t: seq<NodeRec>, n: NodeId)
    requires WellFormed(t) && n < |t|
    ensures |Ancestors(t, n)| == t[n].depth
    ensures |Ancestors(t, n)| > 0 ==> Ancestors(t, n)[|Ancestors(t, n)| - 1] == RootId
    decreases n
  {
    WellFormedAt(t, n);
    match t[n].parent
    case None =>
    case Some(p) =>
      AncestorsDepth(t, p);
      WellFormedAt(t, p);
  }

  /** The first node of a chain that carries the name nm. */
  function FirstNamed(t: seq<NodeRec>, chain: seq<NodeId>, nm: string): (r: Option<NodeId>)
    requires forall j | 0 <= j < |chain| :: chain[j] < |t|
    ensures r.None? <==> forall j | 0 <= j < |chain| :: t[chain[j]].name != nm
    ensures r.Some? ==>
              exists j | 0 <= j < |chain| ::
                && chain[j] == r.value && t[chain[j]].name == nm
                && forall i | 0 <= i < j :: t[chain[i]].name != nm
  {
    if |chain| == 0 then None
    else if t[chain[0]].name == nm then Some(chain[0])
    else
      var r := FirstNamed(t, chain[1..], nm);
      assert forall j | 1 <= j < |chain| :: chain[j] == chain[1..][j - 1];
      r
  }

  /** getParent(name) is the nearest strict ancestor with that name, if there is one. */
  lemma {:induction false} GetParentNearest(t: seq<NodeRec>, n: NodeId, nm: string)
    requires WellFormed(t) && n < |t|
    ensures GetParent(t, n, nm) == FirstNamed(t, Ancestors(t, n), nm)
    decreases n
  {
    WellFormedAt(t, n);
    match t[n].parent
    case None =>
    case Some(p) =>
      var anc := Ancestors(t, n);
      assert anc[1..] == Ancestors(t, p);
      GetParentNearest(t, p, nm);
  }

  /** With sibling names unique, the first child named like the k-th child is the k-th child. */
  lemma IndexOfChild(t: seq<NodeRec>, p: NodeId, k: nat)
    requires WellFormed(t) && p < |t| && k < |t[p].branches|
    requires forall j | 0 <= j < |t[p].branches| :: t[p].branches[j] < |t|
    ensures IndexOfName(t, t[p].branches, t[t[p].branches[k]].name) == k
    ensures Remove(t, p, t[p].branches[k])[p].branches == t[p].branches[..k] + t[p].branches[k + 1..]
  {
    var br := t[p].branches;
    var nm := t[br[k]].name;
    IndexOfNameChild(t, p, k);
    RemoveFirstNamedSplices(t, br, nm);
    WellFormedAt(t, p);
    assert Remove(t, p, br[k])[p].branches == RemoveFirstNamed(t, br, nm);
  }

  lemma IndexOfNameChild(t: seq<NodeRec>, p: NodeId, k: nat)
    requires WellFormed(t) && p < |t| && k < |t[p].branches|
    requires forall j | 0 <= j < |t[p].branches| :: t[p].branches[j] < |t|
    ensures IndexOfName(t, t[p].branches, t[t[p].branches[k]].name) == k
  {
    WellFormedAt(t, p);
    var br := t[p].branches;
    var nm := t[br[k]].name;
    var k' := IndexOfName(t, br, nm);
    assert k' <= k;
    assert t[br[k']].name == nm;
  }

  /**
   * removeBranch(child) on the child at position k: the list loses exactly
   * that position, keeping the others in order, and the child's name leaves
   * the map, so neither query on the parent finds it any more.
   */
  lemma RemoveChild(t: seq<NodeRec>, p: NodeId, k: nat)
    requires WellFormed(t) && p < |t| && k < |t[p].branches|
    requires forall j | 0 <= j < |t[p].branches| :: t[p].branches[j] < |t|
    ensures var b := t[p].branches[k];
            var u := Remove(t, p, b);
            && u[p].branches == t[p].branches[..k] + t[p].branches[k + 1..]
            && |u[p].branches| == |t[p].branches| - 1
            && u[p].branchMap == t[p].branchMap - {t[b].name}
            && !ContainsBranch(u, p, t[b].name) && BranchNode(u, p, t[b].name) == None
  {
    IndexOfChild(t, p, k);
  }

  /**
   * removeBranch(child) leaves every other child of the parent in its list
   * and reachable by its name.
   */
  lemma RemoveKeepsSiblings(t: seq<NodeRec>, p: NodeId, k: nat)
    requires WellFormed(t) && p < |t| && k < |t[p].branches|
    requires forall j | 0 <= j < |t[p].branches| :: t[p].branches[j] < |t|
    ensures var u := Remove(t, p, t[p].branches[k]);
            forall j | 0 <= j < |t[p].branches| && j != k ::
              t[p].branches[j] in u[p].branches && BranchNode(u, p, t[t[p].branches[j]].name) == Some(t[p].branches[j])
  {
    IndexOfChild(t, p, k);
    WellFormedAt(t, p);
    var br := t[p].branches;
    var nm := t[br[k]].name;
    var u := Remove(t, p, br[k]);
    assert u[p].branchMap == t[p].branchMap - {nm};
    assert u[p].branches == br[..k] + br[k + 1..];
    forall j | 0 <= j < |br| && j != k
      ensures br[j] in u[p].branches && BranchNode(u, p, t[br[j]].name) == Some(br[j])
    {
      var j' := if j < k then j else j - 1;
      assert u[p].branches[j'] == br[j];
      var nmj := t[br[j]].name;
      assert nmj != nm;
      assert nmj in u[p].branchMap && u[p].branchMap[nmj] == br[j];
    }
  }

  /** Tables that differ only in attached entries answer every path lookup alike. */
  lemma {:induction false} SameShapeLookup(t: seq<NodeRec>, u: seq<NodeRec>, n: NodeId, path: seq<string>)
    requires WellFormed(t) && WellFormed(u) && SameShape(t, u) && n < |t| && |path| > 0
    ensures Lookup(u, n, path) == Lookup(t, n, path)
    decreases |path|
  {
    WellFormedAt(t, n);
    WellFormedAt(u, n);
    assert BranchNode(u, n, path[0]) == BranchNode(t, n, path[0]);
    if |path| > 1 && BranchNode(t, n, path[0]).Some? {
      SameShapeLookup(t, u, BranchNode(t, n, path[0]).value, path[1..]);
    }
  }

  /**
   * Adding Parent$Child1 and then Parent$Child2 to a fresh tree gives one
   * Parent below the root, holding Child1 and Child2 in that order.
   */
  lemma SharedParentScenario()
    ensures var t1 := Insert([RootRec()], RootId, ["Parent", "Child1"]).0;
            var t2 := Insert(t1, RootId, ["Parent", "Child2"]).0;
            && |t2[RootId].branches| == 1
            && var p := t2[RootId].branches[0];
               && p < |t2| && t2[p].name == "Parent"
               && BranchNames(t2, p) == ["Child1", "Child2"]
  {
    var t0 := [RootRec()];
    var g1 := Generate(t0, RootId, "Parent");
    var g2 := Generate(g1.0, 1, "Child1");
    assert Insert(g1.0, 1, ["Child1"]) == Insert(g2.0, 2, []);
    assert Insert(t0, RootId, ["Parent", "Child1"]) == Insert(g1.0, 1, ["Child1"]);
    var t1 := g2.0;
    assert BranchNode(t1, RootId, "Parent") == Some(1);
    assert BranchNode(t1, 1, "Child2") == None;
    var g3 := Generate(t1, 1, "Child2");
    assert Insert(t1, 1, ["Child2"]) == Insert(g3.0, 3, []);
    assert Insert(t1, RootId, ["Parent", "Child2"]) == Insert(t1, 1, ["Child2"]);
    var t2 := g3.0;
    assert BranchNames(t2, 1) == ["Child1", "Child2"];
  }

  lemma SameShapeTrans(t: seq<NodeRec>, u: seq<NodeRec>, v: seq<NodeRec>)
    requires SameShape(t, u) && SameShape(u, v)
    ensures SameShape(t, v)
  {
  }

  // ---------------------------------------------------------------- the Tree

  /** The process-wide tree: the table of all Node objects, ROOT first. */
  class Tree {
    var nodes: seq<NodeRec>

    ghost predicate Valid()
      reads this
    {
      WellFormed(nodes)
    }

    /** The static initialiser: a lone ROOT. */
    constructor ()
      ensures Valid() && nodes == [RootRec()]
    {
      nodes := [RootRec()];
      new;
      assert ParentOk(nodes, 0) && BranchesOk(nodes, 0);
    }

    method GenerateBranch(n: NodeId, nm: string) returns (c: NodeId)
      requires Valid() && n < |nodes| && nm !in nodes[n].branchMap
      modifies this
      ensures (nodes, c) == Generate(old(nodes), n, nm)
      ensures Valid()
    {
      c := |nodes|;
      var parent := nodes[n];
      var branch := NodeRec(nm, parent.depth + 1, Some(n), [], map[], [], None);
      nodes := nodes[n := parent.(branches := parent.branches + [c], branchMap := parent.branchMap[nm := c])] + [branch];
      ghost var g := Generate(old(nodes), n, nm);
      assert nodes == g.0;
    }

    method AddChildren(n: NodeId, path: seq<string>) returns (r: NodeId)
      requires Valid() && n < |nodes|
      modifies this
      ensures (nodes, r) == Insert(old(nodes), n, path)
      ensures Valid()
      decreases |path|
    {
      if |path| == 0 {
        return n;
      }
      var existing := BranchNode(nodes, n, path[0]);
      var child: NodeId;
      if existing.Some? {
        child := existing.value;
      } else {
        child := GenerateBranch(n, path[0]);
      }
      r := AddChildren(child, path[1..]);
    }

    /** addNode(entry): inserts the nested-class path of the entry's source name. */
    method AddNode(n: NodeId, report: Entry) returns (r: NodeId)
      requires Valid() && n < |nodes|
      modifies this
      ensures (nodes, r) == Insert(old(nodes), n, ClassPath.GetTestClassPath(report.sourceName))
      ensures Valid()
    {
      r := AddChildren(n, ClassPath.GetTestClassPath(report.sourceName));
    }

    method RemoveBranch(p: NodeId, b: NodeId)
      requires Valid() && p < |nodes| && b < |nodes|
      modifies this
      ensures nodes == Remove(old(nodes), p, b)
      ensures Valid()
    {
      WellFormedAt(nodes, p);
      var parent := nodes[p];
      var nm := nodes[b].name;
      nodes := nodes[p := parent.(branches := RemoveFirstNamed(nodes, parent.branches, nm))];
      nodes := nodes[p := nodes[p].(branchMap := parent.branchMap - {nm})];
    }

    method ClearTree()
      requires Valid()
      modifies this
      ensures nodes == Clear(old(nodes))
      ensures Valid()
    {
      nodes := nodes[RootId := nodes[RootId].(branches := [])];
      nodes := nodes[RootId := nodes[RootId].(branchMap := map[])];
    }

    method SetClassReportEntry(n: NodeId, e: Entry)
      requires Valid() && n < |nodes|
      modifies this
      ensures nodes == SetClassEntry(old(nodes), n, e)
      ensures Valid()
    {
      nodes := nodes[n := nodes[n].(classEntry := Some(e))];
    }

    /** Appends to the node's wrappedReportEntries list. */
    method AddEntry(n: NodeId, e: Entry)
      requires Valid() && n < |nodes|
      modifies this
      ensures nodes == AppendEntry(old(nodes), n, e)
      ensures Valid()
    {
      nodes := nodes[n := nodes[n].(entries := nodes[n].entries + [e])];
    }
  }
}
