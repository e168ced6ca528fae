/** The tree planner of `src/tree/plan.rs`: one bounded process table becomes the preview a tree
    kill is confirmed on. */
module TreePlan {
  import opened Orders
  import opened KillTargets
  import opened ProcessTree

  datatype PlanError = RootMissing | SnapshotLimitExceeded(limit: nat)

  function NodeOf(info: ProcessInfo, depth: nat): TreeNode {
    TreeNode(info.pid, info.parentPid, depth, info.isProtected)
  }

  function ByInfoPid(l: ProcessInfo, r: ProcessInfo): Ordering {
    CompareInt(l.pid, r.pid)
  }

  function HasParent(pid: nat): ProcessInfo -> bool {
    (p: ProcessInfo) => p.parentPid == Some(pid)
  }

  /** `ProcessTreeIndex::children` */
  function InfoChildren(table: seq<ProcessInfo>, pid: nat): seq<ProcessInfo> {
    Sort(ByInfoPid, Filter(HasParent(pid), table))
  }

  function ByDepth(l: TreeNode, r: TreeNode): Ordering {
    CompareInt(l.depth, r.depth).Then(CompareInt(l.pid, r.pid))
  }

  lemma InfoChildrenAre(table: seq<ProcessInfo>, pid: nat)
    ensures forall p | p in InfoChildren(table, pid) :: p in table && p.parentPid == Some(pid)
    ensures forall p | p in table && p.parentPid == Some(pid) :: p in InfoChildren(table, pid)
  {
    forall x, y, z ensures LawfulAt(ByInfoPid, x, y, z) {}
    var raw := Filter(HasParent(pid), table);
    SortElements(ByInfoPid, raw);
    forall p ensures p in InfoChildren(table, pid) <==> p in raw {
      assert p in InfoChildren(table, pid) <==> p in Elements(Sort(ByInfoPid, raw));
    }
  }

  function TablePids(table: seq<ProcessInfo>): set<nat> {
    set p | p in table :: p.pid
  }

  /** Every node is a process of the table, with its parent and its protection. */
  ghost predicate FromTable(table: seq<ProcessInfo>, nodes: seq<TreeNode>) {
    forall n | n in nodes ::
      exists p | p in table :: n.pid == p.pid && n.parentPid == p.parentPid && n.isProtected == p.isProtected
  }

  /** Nearer processes first, those at one depth by PID. */
  ghost predicate NearestFirst(nodes: seq<TreeNode>) {
    forall i, j | 0 <= i < j < |nodes| ::
      nodes[i].depth < nodes[j].depth || (nodes[i].depth == nodes[j].depth && nodes[i].pid <= nodes[j].pid)
  }

  /** Every process whose parent is among `parents` is itself planned. */
  ghost predicate Covers(table: seq<ProcessInfo>, parents: set<nat>, seen: set<nat>) {
    forall p | p in table && p.parentPid.Some? && p.parentPid.value in parents :: p.pid in seen
  }

  // ----- Growing a planned tree

  lemma {:induction false} BagMember(list: seq<TreeNode>, pid: nat)
    requires PidBag(list)[pid] >= 1
    ensures pid in Pids(list)
  {
    if list[0].pid == pid {
      assert list[0] in list;
    } else {
      BagMember(list[1..], pid);
      assert list == [list[0]] + list[1..];
    }
  }

  lemma DistinctGrows(list: seq<TreeNode>, n: TreeNode)
    requires Distinct(list) && n.pid !in Pids(list)
    ensures Distinct(list + [n])
  {
    BagAppend(list, [n]);
    forall pid ensures PidBag(list + [n])[pid] <= 1 {
      assert PidBag(list)[pid] <= 1;
      if pid == n.pid && PidBag(list)[pid] >= 1 {
        BagMember(list, pid);
      }
    }
  }

  lemma PlannedGrows(nodes: seq<TreeNode>, root: TreeNode, parent: TreeNode, n: TreeNode)
    requires Planned(nodes, root) && parent in nodes && n.pid !in Pids(nodes)
    requires n.parentPid == Some(parent.pid) && n.depth == parent.depth + 1
    ensures Planned(nodes + [n], root)
  {
    DistinctGrows(nodes, n);
    hide Distinct;
    var more := nodes + [n];
    forall c | c in more && c != root
      ensures c.depth > 0 && exists p | p in more :: c.parentPid == Some(p.pid) && c.depth == p.depth + 1
    {
      if c in nodes {
        var p :| p in nodes && c.parentPid == Some(p.pid) && c.depth == p.depth + 1;
        assert p in more;
      } else {
        assert parent in more;
      }
    }
  }

  lemma PlannedPermutes(nodes: seq<TreeNode>, root: TreeNode, other: seq<TreeNode>)
    requires Planned(nodes, root) && multiset(nodes) == multiset(other)
    ensures Planned(other, root) && Pids(other) == Pids(nodes) && |other| == |nodes|
    ensures forall n :: n in other <==> n in nodes
  {
    forall n ensures n in other <==> n in nodes {
      assert n in other <==> n in multiset(other);
      assert n in nodes <==> n in multiset(nodes);
    }
    MultisetSize(nodes, other);
    BagPermutes(nodes, other);
    hide PidBag;
    forall c | c in other && c != root
      ensures c.depth > 0 && exists p | p in other :: c.parentPid == Some(p.pid) && c.depth == p.depth + 1
    {
      var p :| p in nodes && c.parentPid == Some(p.pid) && c.depth == p.depth + 1;
      assert p in other;
    }
  }

  // ----- The planner

  /** A tree under construction: planned, taken from the table, within the limit. */
  ghost predicate Growing(table: seq<ProcessInfo>, nodes: seq<TreeNode>, root: TreeNode, limit: nat) {
    && Planned(nodes, root) && FromTable(table, nodes) && Pids(nodes) <= TablePids(table)
    && 1 <= |nodes| && (|nodes| <= limit || |nodes| == 1)
  }

  predicate Within(list: seq<TreeNode>, nodes: seq<TreeNode>) {
    forall n | n in list :: n in nodes
  }

  /** The inner loop: every unseen child joins the tree and the frontier, until the limit. */
  method AddChildren(table: seq<ProcessInfo>, parent: TreeNode, nodes: seq<TreeNode>, frontier: seq<TreeNode>, limit: nat,
                     ghost root: TreeNode)
    returns (more: seq<TreeNode>, ahead: seq<TreeNode>, truncated: bool)
    requires Growing(table, nodes, root, limit) && parent in nodes && Within(frontier, nodes)
    ensures Growing(table, more, root, limit) && Within(ahead, more)
    ensures truncated ==> |more| >= limit
    ensures Pids(nodes) <= Pids(more) && Pids(ahead) == Pids(frontier) + (Pids(more) - Pids(nodes))
    ensures !truncated ==> Covers(table, {parent.pid}, Pids(more))
    ensures Pids(more) == Pids(nodes) ==> ahead == frontier
  {
    hide Growing;
    hide Pids;
    InfoChildrenAre(table, parent.pid);
    var children := InfoChildren(table, parent.pid);
    hide InfoChildren;
    more, ahead, truncated := nodes, frontier, false;
    for i := 0 to |children|
      invariant Growing(table, more, root, limit) && Within(ahead, more) && parent in more
      invariant Pids(nodes) <= Pids(more) && Pids(ahead) == Pids(frontier) + (Pids(more) - Pids(nodes))
      invariant forall j | 0 <= j < i :: children[j].pid in Pids(more)
      invariant Pids(more) == Pids(nodes) ==> ahead == frontier
    {
      var child := children[i];
      if child.pid in Pids(more) {
        continue;
      }
      if |more| >= limit {
        truncated := true;
        return;
      }
      more, ahead := AddOne(table, child, parent, more, ahead, limit, root);
    }
  }

  /** One unseen child joins the tree and the frontier. */
  method AddOne(table: seq<ProcessInfo>, child: ProcessInfo, parent: TreeNode, nodes: seq<TreeNode>, frontier: seq<TreeNode>,
                limit: nat, ghost root: TreeNode)
    returns (more: seq<TreeNode>, ahead: seq<TreeNode>)
    requires Growing(table, nodes, root, limit) && parent in nodes && Within(frontier, nodes) && |nodes| < limit
    requires child in table && child.parentPid == Some(parent.pid) && child.pid !in Pids(nodes)
    ensures Growing(table, more, root, limit) && Within(ahead, more) && parent in more
    ensures Pids(more) == Pids(nodes) + {child.pid} && Pids(ahead) == Pids(frontier) + {child.pid}
  {
    var node := NodeOf(child, parent.depth + 1);
    PlannedGrows(nodes, root, parent, node);
    FromTableGrows(table, nodes, child, parent.depth + 1);
    PidsGrow(nodes, node);
    PidsGrow(frontier, node);
    hide Planned;
    hide FromTable;
    hide Pids;
    more, ahead := nodes + [node], frontier + [node];
  }

  lemma PidsGrow(list: seq<TreeNode>, n: TreeNode)
    ensures Pids(list + [n]) == Pids(list) + {n.pid}
  {
    assert n in list + [n];
  }

  lemma FromTableGrows(table: seq<ProcessInfo>, nodes: seq<TreeNode>, p: ProcessInfo, depth: nat)
    requires FromTable(table, nodes) && p in table
    ensures FromTable(table, nodes + [NodeOf(p, depth)])
  {
  }

  lemma RootPlanned(root: TreeNode)
    requires root.depth == 0
    ensures Planned([root], root) && Pids([root]) == {root.pid}
  {
    assert root in [root];
    assert forall pid :: PidBag([root])[pid] <= 1;
  }

  /** `plan_process_tree`: the preview is a tree rooted at the requested process, in display
      order, no larger than the limit; unless it says so, no descendant is missing. */
  method PlanProcessTree(rootPid: nat, table: seq<ProcessInfo>, indexLimit: nat, limit: nat)
    returns (r: Result<TreePreview, PlanError>, ghost root: TreeNode)
    ensures r.Err? <==> |table| > indexLimit || Lookup(table, rootPid).None?
    ensures r.Err? ==> r.error == if |table| > indexLimit then SnapshotLimitExceeded(indexLimit) else RootMissing
    ensures r.Ok? ==> Planned(r.value.nodes, root) && root.pid == rootPid && FromTable(table, r.value.nodes)
    ensures r.Ok? ==> NearestFirst(r.value.nodes) && (|r.value.nodes| <= limit || |r.value.nodes| == 1)
    ensures r.Ok? && r.value.truncated ==> |r.value.nodes| >= limit
    ensures r.Ok? && !r.value.truncated ==> Covers(table, Pids(r.value.nodes), Pids(r.value.nodes))
  {
    hide Planned;
    hide FromTable;
    hide Pids;
    hide Covers;
    hide NearestFirst;
    hide ByDepth;
    root := TreeNode(0, None, 0, false);
    if |table| > indexLimit {
      return Err(SnapshotLimitExceeded(indexLimit)), root;
    }
    var info := Lookup(table, rootPid);
    if info.None? {
      return Err(RootMissing), root;
    }
    root := NodeOf(info.value, 0);
    RootGrowing(table, info.value, limit);
    var nodes, truncated := WalkTree(table, NodeOf(info.value, 0), limit);
    SortPlan(table, nodes, root);
    r := Ok(TreePreview(Sort(ByDepth, nodes), truncated));
  }

  lemma RootGrowing(table: seq<ProcessInfo>, info: ProcessInfo, limit: nat)
    requires info in table
    ensures Growing(table, [NodeOf(info, 0)], NodeOf(info, 0), limit)
  {
    hide Planned;
    RootPlanned(NodeOf(info, 0));
    assert FromTable(table, [NodeOf(info, 0)]);
  }

  lemma SortPlan(table: seq<ProcessInfo>, nodes: seq<TreeNode>, root: TreeNode)
    requires Planned(nodes, root) && FromTable(table, nodes)
    ensures Planned(Sort(ByDepth, nodes), root) && FromTable(table, Sort(ByDepth, nodes)) && NearestFirst(Sort(ByDepth, nodes))
    ensures Pids(Sort(ByDepth, nodes)) == Pids(nodes) && |Sort(ByDepth, nodes)| == |nodes|
  {
    hide Planned;
    forall x, y, z ensures LawfulAt(ByDepth, x, y, z) {}
    SortSorts(ByDepth, nodes);
    PlannedPermutes(nodes, root, Sort(ByDepth, nodes));
  }

  /** The frontier walk. Each turn settles one process: all its children are planned. */
  method WalkTree(table: seq<ProcessInfo>, root: TreeNode, limit: nat) returns (nodes: seq<TreeNode>, truncated: bool)
    requires Growing(table, [root], root, limit)
    ensures Growing(table, nodes, root, limit) && (truncated ==> |nodes| >= limit)
    ensures !truncated ==> Covers(table, Pids(nodes), Pids(nodes))
  {
    hide Growing;
    nodes, truncated := [root], false;
    var frontier := [root];
    ghost var settled: set<nat> := {};
    assert Pids(nodes) == settled + Pids(frontier);
    hide Pids;
    while frontier != []
      invariant !truncated
      invariant Growing(table, nodes, root, limit) && Within(frontier, nodes)
      invariant Pids(nodes) == settled + Pids(frontier) && Covers(table, settled, Pids(nodes))
      decreases TablePids(table) - Pids(nodes), |frontier|
    {
      var parent := frontier[|frontier| - 1];
      PopPids(frontier);
      ghost var before := Pids(nodes);
      GrowingPids(table, nodes, root, limit);
      nodes, frontier, truncated := AddChildren(table, parent, nodes, frontier[..|frontier| - 1], limit, root);
      if truncated {
        return;
      }
      GrowingPids(table, nodes, root, limit);
      settled := settled + {parent.pid};
      assert Pids(nodes) != before ==> before < Pids(nodes);
    }
    NoPids();
  }

  lemma PopPids(list: seq<TreeNode>)
    requires list != []
    ensures Pids(list) == Pids(list[..|list| - 1]) + {list[|list| - 1].pid}
  {
    assert list == list[..|list| - 1] + [list[|list| - 1]];
  }

  lemma NoPids()
    ensures Pids([]) == {}
  {
  }

  lemma GrowingPids(table: seq<ProcessInfo>, nodes: seq<TreeNode>, root: TreeNode, limit: nat)
    requires Growing(table, nodes, root, limit)
    ensures Pids(nodes) <= TablePids(table)
  {
  }

  /** What a confirmed tree kill may touch: a planned, untruncated tree that passed the
      preflight holds every descendant of its root, each once, none unsafe and none protected
      below the root, and displaying it loses nothing. */
  lemma PlannedKillIsWhole(table: seq<ProcessInfo>, ownPid: nat, preview: TreePreview, root: TreeNode)
    requires Planned(preview.nodes, root) && Covers(table, Pids(preview.nodes), Pids(preview.nodes))
    requires Preflight(ownPid, preview).None?
    ensures Layered(preview.nodes) && multiset(Subtree(preview.nodes, root)) == multiset(preview.nodes)
    ensures Root(preview) == Some(root)
    ensures forall n | n in preview.nodes :: !IsUnsafePid(ownPid, n.pid) && (n.isProtected ==> n == root)
    ensures forall p, c | p in Pids(preview.nodes) && c in table && c.parentPid == Some(p) :: c.pid in Pids(preview.nodes)
  {
    PreorderIsWholeTree(preview.nodes, root);
    TreeGatesExactly(ownPid, preview, true);
    FirstNodeFinds((n: TreeNode) => n.depth == 0, preview.nodes);
    hide Preflight;
    hide Layered;
  }
}
