/** Process trees for display and for tree kills: the planner of `src/tree/plan.rs`, and the
    explicit-stack walk and ancestor chain of `src/inspect.rs`. */
module ProcessTree {
  import opened Orders
  import opened KillTargets

  const ANCESTOR_WALK_MAX: nat := 64

  // ----- Children in order

  function ByPid(l: TreeNode, r: TreeNode): Ordering {
    CompareInt(l.pid, r.pid)
  }

  function IsChildOf(pid: nat): TreeNode -> bool {
    (n: TreeNode) => n.depth != 0 && n.parentPid == Some(pid)
  }

  function Children(nodes: seq<TreeNode>, pid: nat): seq<TreeNode> {
    Sort(ByPid, Filter(IsChildOf(pid), nodes))
  }

  lemma ByPidLawful()
    ensures Lawful(ByPid)
  {
    forall x, y, z ensures LawfulAt(ByPid, x, y, z) {}
  }

  /** Children are nodes of the table, in ascending PID order. */
  lemma ChildrenOrdered(nodes: seq<TreeNode>, pid: nat)
    ensures forall c | c in Children(nodes, pid) :: c in nodes && IsChildOf(pid)(c)
    ensures Sorted(ByPid, Children(nodes, pid))
    ensures forall i, j | 0 <= i < j < |Children(nodes, pid)| :: Children(nodes, pid)[i].pid <= Children(nodes, pid)[j].pid
    ensures multiset(Children(nodes, pid)) == multiset(Filter(IsChildOf(pid), nodes))
  {
    ByPidLawful();
    var raw := Filter(IsChildOf(pid), nodes);
    SortSorts(ByPid, raw);
    forall c | c in Children(nodes, pid) ensures c in raw {
      assert c in multiset(Sort(ByPid, raw));
    }
  }

  // ----- The recursive preorder

  /** Following a child edge goes one level down; a cyclic table is not layered. */
  predicate Layered(nodes: seq<TreeNode>) {
    forall n, c | n in nodes && c in nodes && IsChildOf(n.pid)(c) :: c.depth == n.depth + 1
  }

  function MaxDepth(nodes: seq<TreeNode>): (m: nat)
    ensures forall n | n in nodes :: n.depth <= m
  {
    if nodes == [] then 0
    else
      var rest := MaxDepth(nodes[1..]);
      if nodes[0].depth > rest then nodes[0].depth else rest
  }

  predicate AllAt(nodes: seq<TreeNode>, list: seq<TreeNode>, depth: nat) {
    forall n | n in list :: n in nodes && n.depth == depth
  }

  lemma ChildrenLayer(nodes: seq<TreeNode>, n: TreeNode)
    requires Layered(nodes) && n in nodes
    ensures AllAt(nodes, Children(nodes, n.pid), n.depth + 1)
  {
    ChildrenOrdered(nodes, n.pid);
  }

  /** A node, then each child's subtree, children by ascending PID. */
  ghost function Subtree(nodes: seq<TreeNode>, n: TreeNode): seq<TreeNode>
    requires Layered(nodes) && n in nodes
    decreases MaxDepth(nodes) - n.depth + 1, 0
  {
    ChildrenLayer(nodes, n);
    [n] + Forest(nodes, Children(nodes, n.pid), n.depth + 1)
  }

  ghost function Forest(nodes: seq<TreeNode>, list: seq<TreeNode>, depth: nat): seq<TreeNode>
    requires Layered(nodes) && AllAt(nodes, list, depth)
    decreases if list == [] then 0 else MaxDepth(nodes) - depth + 1, 1 + |list|
  {
    if list == [] then [] else Subtree(nodes, list[0]) + Forest(nodes, list[1..], depth)
  }

  function Take<T>(s: seq<T>, n: nat): seq<T> {
    if n < |s| then s[..n] else s
  }

  // ----- The explicit stack

  /** What a stack still has to emit, top first. */
  ghost function Pending(nodes: seq<TreeNode>, stack: seq<TreeNode>): seq<TreeNode>
    requires Layered(nodes) && forall n | n in stack :: n in nodes
  {
    if stack == [] then [] else Subtree(nodes, stack[|stack| - 1]) + Pending(nodes, stack[..|stack| - 1])
  }

  function LastRoot(nodes: seq<TreeNode>): Option<TreeNode> {
    if nodes == [] then None
    else if nodes[|nodes| - 1].depth == 0 then Some(nodes[|nodes| - 1])
    else LastRoot(nodes[..|nodes| - 1])
  }

  lemma {:induction false} LastRootIn(nodes: seq<TreeNode>)
    ensures LastRoot(nodes).Some? ==> LastRoot(nodes).value in nodes && LastRoot(nodes).value.depth == 0
  {
    if nodes != [] {
      LastRootIn(nodes[..|nodes| - 1]);
    }
  }

  /** Pushing children in reverse puts their forest on top of the stack. */
  method PushReversed(ghost nodes: seq<TreeNode>, stack: seq<TreeNode>, children: seq<TreeNode>, ghost depth: nat)
    returns (r: seq<TreeNode>)
    requires forall n | n in stack || n in children :: n in nodes
    ensures forall n | n in r :: n in stack || n in children
    ensures Layered(nodes) && AllAt(nodes, children, depth) ==>
      Pending(nodes, r) == Forest(nodes, children, depth) + Pending(nodes, stack)
  {
    hide Layered;
    hide Subtree;
    r := stack;
    var i := |children|;
    while i > 0
      invariant 0 <= i <= |children|
      invariant forall n | n in r :: n in stack || n in children
      invariant Layered(nodes) && AllAt(nodes, children, depth) ==>
        Pending(nodes, r) == Forest(nodes, children[i..], depth) + Pending(nodes, stack)
    {
      i := i - 1;
      ghost var before := r;
      r := r + [children[i]];
      assert r[..|r| - 1] == before;
      assert children[i..][1..] == children[i + 1..];
    }
    assert children[0..] == children;
  }

  predicate ParentBefore(ordered: seq<TreeNode>, n: TreeNode, i: nat)
    requires i <= |ordered|
  {
    exists j | 0 <= j < i :: n.parentPid == Some(ordered[j].pid)
  }

  /** Every node after the first follows its parent. */
  predicate ParentsFirst(ordered: seq<TreeNode>) {
    forall i | 0 < i < |ordered| :: ParentBefore(ordered, ordered[i], i)
  }

  predicate Reached(ordered: seq<TreeNode>, n: TreeNode) {
    ParentBefore(ordered, n, |ordered|)
  }

  lemma ParentBeforeGrows(ordered: seq<TreeNode>, more: seq<TreeNode>, n: TreeNode, i: nat)
    requires i <= |ordered| && ordered <= more && ParentBefore(ordered, n, i)
    ensures ParentBefore(more, n, i) && Reached(more, n)
  {
    var j :| 0 <= j < i && n.parentPid == Some(ordered[j].pid);
    assert more[j] == ordered[j];
  }

  lemma EmitKeepsParents(ordered: seq<TreeNode>, n: TreeNode)
    requires ParentsFirst(ordered) && (ordered != [] ==> Reached(ordered, n))
    ensures ParentsFirst(ordered + [n])
  {
    var more := ordered + [n];
    forall i | 0 < i < |more| ensures ParentBefore(more, more[i], i) {
      ParentBeforeGrows(ordered, more, more[i], i);
    }
  }

  /** Emitting a node and pushing its children leaves the walk's result unchanged. */
  lemma VisitStep(nodes: seq<TreeNode>, ordered: seq<TreeNode>, stack: seq<TreeNode>, node: TreeNode, rest: seq<TreeNode>)
    requires Layered(nodes) && node in nodes && (forall n | n in stack || n in rest :: n in nodes)
    requires AllAt(nodes, Children(nodes, node.pid), node.depth + 1) ==>
      Pending(nodes, rest) == Forest(nodes, Children(nodes, node.pid), node.depth + 1) + Pending(nodes, stack)
    ensures ordered + Pending(nodes, stack + [node]) == (ordered + [node]) + Pending(nodes, rest)
  {
    PendingTop(nodes, stack, node);
    SubtreeParts(nodes, node);
    hide *;
    Regroup(ordered, [node], Forest(nodes, Children(nodes, node.pid), node.depth + 1), Pending(nodes, stack));
  }

  lemma Regroup<T>(a: seq<T>, b: seq<T>, c: seq<T>, d: seq<T>)
    ensures a + ((b + c) + d) == (a + b) + (c + d)
  {
  }

  lemma PendingTop(nodes: seq<TreeNode>, stack: seq<TreeNode>, node: TreeNode)
    requires Layered(nodes) && node in nodes && (forall n | n in stack :: n in nodes)
    ensures Pending(nodes, stack + [node]) == Subtree(nodes, node) + Pending(nodes, stack)
  {
    hide Layered;
    hide Subtree;
    assert (stack + [node])[..|stack|] == stack;
  }

  lemma SubtreeParts(nodes: seq<TreeNode>, node: TreeNode)
    requires Layered(nodes) && node in nodes
    ensures AllAt(nodes, Children(nodes, node.pid), node.depth + 1)
    ensures Subtree(nodes, node) == [node] + Forest(nodes, Children(nodes, node.pid), node.depth + 1)
  {
    ChildrenLayer(nodes, node);
    hide Layered;
    hide AllAt;
    hide Forest;
    hide Children;
  }

  /** Each parent's children among a prefix of the table, in table order. */
  ghost predicate Grouped(nodes: seq<TreeNode>, raw: map<nat, seq<TreeNode>>) {
    forall pid: nat :: Filter(IsChildOf(pid), nodes) == if pid in raw then raw[pid] else []
  }

  lemma GroupOne(nodes: seq<TreeNode>, n: TreeNode, pid: nat)
    ensures Filter(IsChildOf(pid), nodes + [n]) == Filter(IsChildOf(pid), nodes) + if IsChildOf(pid)(n) then [n] else []
  {
    FilterAppend(IsChildOf(pid), nodes, [n]);
  }

  method Group(ghost nodes: seq<TreeNode>, raw: map<nat, seq<TreeNode>>, n: TreeNode) returns (more: map<nat, seq<TreeNode>>)
    requires Grouped(nodes, raw)
    ensures Grouped(nodes + [n], more)
  {
    hide Filter;
    more := raw;
    if n.depth != 0 && n.parentPid.Some? {
      var p := n.parentPid.value;
      more := raw[p := (if p in raw then raw[p] else []) + [n]];
    }
    forall pid: nat ensures Filter(IsChildOf(pid), nodes + [n]) == if pid in more then more[pid] else [] {
      GroupOne(nodes, n, pid);
    }
  }

  /** `children_by_parent`: every child under its parent, by ascending PID. */
  method IndexChildren(nodes: seq<TreeNode>) returns (index: map<nat, seq<TreeNode>>)
    ensures forall pid: nat :: Children(nodes, pid) == if pid in index then index[pid] else []
  {
    hide IsChildOf;
    var raw: map<nat, seq<TreeNode>> := map[];
    for i := 0 to |nodes|
      invariant Grouped(nodes[..i], raw)
    {
      hide Grouped;
      raw := Group(nodes[..i], raw, nodes[i]);
      assert nodes[..i + 1] == nodes[..i] + [nodes[i]];
    }
    assert nodes[..|nodes|] == nodes;
    index := map p | p in raw :: Sort(ByPid, raw[p]);
  }

  /** `ordered_tree_nodes`: the explicit stack emits exactly the first `max` nodes of the
      recursive preorder, and on a cyclic table still stops after `max`. */
  method OrderedTreeNodes(nodes: seq<TreeNode>, max: nat) returns (ordered: seq<TreeNode>)
    ensures |ordered| <= max && (forall n | n in ordered :: n in nodes)
    ensures ParentsFirst(ordered)
    ensures LastRoot(nodes).None? ==> ordered == []
    ensures LastRoot(nodes).Some? && max > 0 ==> ordered != [] && ordered[0] == LastRoot(nodes).value
    ensures LastRoot(nodes).Some? && Layered(nodes) ==>
      LastRoot(nodes).value in nodes && ordered == Take(Subtree(nodes, LastRoot(nodes).value), max)
  {
    hide Layered;
    hide Children;
    hide IsChildOf;
    var children := IndexChildren(nodes);
    LastRootIn(nodes);
    var root := LastRoot(nodes);
    ordered := [];
    var stack := if root.Some? then [root.value] else [];
    ghost var all := if root.Some? && Layered(nodes) then Subtree(nodes, root.value) else [];
    assert root.Some? ==> stack[..|stack| - 1] == [];
    while stack != []
      invariant |ordered| <= max && ParentsFirst(ordered)
      invariant forall n | n in ordered || n in stack :: n in nodes
      invariant root.None? ==> ordered == [] && stack == []
      invariant ordered == [] ==> root.Some? ==> stack == [root.value]
      invariant ordered != [] ==> Some(ordered[0]) == root
      invariant ordered != [] ==> forall n | n in stack :: Reached(ordered, n)
      invariant Layered(nodes) ==> all == ordered + Pending(nodes, stack)
      decreases max - |ordered|
    {
      var node := stack[|stack| - 1];
      if |ordered| == max {
        break;
      }
      stack := stack[..|stack| - 1];
      ordered, stack := Visit(nodes, children, ordered, stack, node, all);
    }
  }

  /** One turn of the walk: emit a node and push its children. */
  method Visit(ghost nodes: seq<TreeNode>, children: map<nat, seq<TreeNode>>, ordered: seq<TreeNode>, stack: seq<TreeNode>,
               node: TreeNode, ghost all: seq<TreeNode>)
    returns (more: seq<TreeNode>, rest: seq<TreeNode>)
    requires forall pid: nat :: Children(nodes, pid) == if pid in children then children[pid] else []
    requires node in nodes && forall n | n in stack :: n in nodes
    requires ParentsFirst(ordered) && (ordered == [] ==> stack == [])
    requires ordered != [] ==> Reached(ordered, node) && forall n | n in stack :: Reached(ordered, n)
    requires Layered(nodes) ==> all == ordered + Pending(nodes, stack + [node])
    ensures more == ordered + [node] && ParentsFirst(more)
    ensures forall n | n in rest :: n in nodes && Reached(more, n)
    ensures Layered(nodes) ==> all == more + Pending(nodes, rest)
  {
    hide Layered;
    hide ParentsFirst;
    hide Pending;
    hide AllAt;
    more := ordered + [node];
    EmitKeepsParents(ordered, node);
    ChildrenOrdered(nodes, node.pid);
    var list := if node.pid in children then children[node.pid] else [];
    assert list == Children(nodes, node.pid);
    rest := PushReversed(nodes, stack, list, node.depth + 1);
    forall n | n in rest ensures Reached(more, n) {
      if n in stack {
        ParentBeforeGrows(ordered, more, n, |ordered|);
      } else {
        assert IsChildOf(node.pid)(n) && more[|ordered|] == node;
      }
    }
    if Layered(nodes) {
      VisitStep(nodes, ordered, stack, node, rest);
    }
  }

  // ----- Every process once

  function PidBag(nodes: seq<TreeNode>): multiset<nat> {
    if nodes == [] then multiset{} else multiset{nodes[0].pid} + PidBag(nodes[1..])
  }

  /** No PID occurs twice. */
  ghost predicate Distinct(nodes: seq<TreeNode>) {
    forall pid :: PidBag(nodes)[pid] <= 1
  }

  lemma {:induction false} BagAppend(a: seq<TreeNode>, b: seq<TreeNode>)
    ensures PidBag(a + b) == PidBag(a) + PidBag(b)
  {
    if a == [] {
      assert a + b == b;
    } else {
      assert (a + b)[0] == a[0] && (a + b)[1..] == a[1..] + b;
      BagAppend(a[1..], b);
    }
  }

  lemma {:induction false} BagPermutes(s: seq<TreeNode>, t: seq<TreeNode>)
    requires multiset(s) == multiset(t)
    ensures PidBag(s) == PidBag(t)
  {
    if s == [] {
      MultisetSize(s, t);
    } else {
      var i := FindHead(s, t);
      BagPermutes(s[1..], t[..i] + t[i+1..]);
      BagAppend(t[..i], t[i+1..]);
      BagAppend(t[..i], [s[0]] + t[i+1..]);
      BagAppend([s[0]], t[i+1..]);
    }
  }

  lemma {:induction false} PidCounted(list: seq<TreeNode>, x: TreeNode)
    requires x in list
    ensures PidBag(list)[x.pid] >= 1
  {
    if x != list[0] {
      assert list == [list[0]] + list[1..];
      PidCounted(list[1..], x);
    }
  }

  lemma DistinctParts(list: seq<TreeNode>)
    requires Distinct(list) && list != []
    ensures Distinct(list[1..]) && forall x | x in list[1..] :: x.pid != list[0].pid
  {
    forall x | x in list[1..] ensures x.pid != list[0].pid {
      PidCounted(list[1..], x);
      assert PidBag(list)[x.pid] <= 1;
    }
    forall pid ensures PidBag(list[1..])[pid] <= 1 {
      assert PidBag(list)[pid] <= 1;
    }
  }

  /** A tree as the planner builds it: distinct PIDs, one root, and every other node one level
      below a parent that is present. */
  ghost predicate Planned(nodes: seq<TreeNode>, root: TreeNode) {
    && root in nodes && root.depth == 0
    && Distinct(nodes)
    && forall c | c in nodes && c != root ::
         c.depth > 0 && exists p | p in nodes :: c.parentPid == Some(p.pid) && c.depth == p.depth + 1
  }

  lemma {:induction false} SamePid(nodes: seq<TreeNode>, a: TreeNode, b: TreeNode)
    requires Distinct(nodes) && a in nodes && b in nodes && a.pid == b.pid
    ensures a == b
  {
    hide Distinct;
    assert nodes == [nodes[0]] + nodes[1..];
    DistinctParts(nodes);
    if a in nodes[1..] && b in nodes[1..] {
      SamePid(nodes[1..], a, b);
    }
  }

  lemma PlannedLayered(nodes: seq<TreeNode>, root: TreeNode)
    requires Planned(nodes, root)
    ensures Layered(nodes)
  {
    forall n, c | n in nodes && c in nodes && IsChildOf(n.pid)(c) ensures c.depth == n.depth + 1 {
      var p :| p in nodes && c.parentPid == Some(p.pid) && c.depth == p.depth + 1;
      SamePid(nodes, n, p);
    }
  }

  function Pids(list: seq<TreeNode>): set<nat> {
    set n | n in list :: n.pid
  }

  function ParentIn(pids: set<nat>): TreeNode -> bool {
    (n: TreeNode) => n.depth != 0 && n.parentPid.Some? && n.parentPid.value in pids
  }

  function AtDepth(d: nat): TreeNode -> bool {
    (n: TreeNode) => n.depth == d
  }

  function AtLeastDepth(d: nat): TreeNode -> bool {
    (n: TreeNode) => n.depth >= d
  }

  /** The next layer below a list of nodes. */
  function NextLayer(nodes: seq<TreeNode>, list: seq<TreeNode>): seq<TreeNode> {
    if list == [] then [] else Children(nodes, list[0].pid) + NextLayer(nodes, list[1..])
  }

  lemma {:induction false} FilterSplits<T>(p: T -> bool, q: T -> bool, r: T -> bool, s: seq<T>)
    requires forall x | x in s :: r(x) <==> p(x) || q(x)
    requires forall x | x in s :: !(p(x) && q(x))
    ensures multiset(Filter(r, s)) == multiset(Filter(p, s)) + multiset(Filter(q, s))
  {
    if s != [] {
      FilterSplits(p, q, r, s[1..]);
      assert s[0] in s;
      assert s == [s[0]] + s[1..];
    }
  }

  lemma {:induction false} FilterAgree<T>(p: T -> bool, q: T -> bool, s: seq<T>)
    requires forall x | x in s :: p(x) <==> q(x)
    ensures Filter(p, s) == Filter(q, s)
  {
    if s != [] {
      FilterAgree(p, q, s[1..]);
      assert s[0] in s;
      assert s == [s[0]] + s[1..];
    }
  }

  /** The layer below distinct nodes holds exactly the nodes whose parent is among them. */
  lemma {:induction false} NextLayerIs(nodes: seq<TreeNode>, list: seq<TreeNode>)
    requires Distinct(list)
    ensures multiset(NextLayer(nodes, list)) == multiset(Filter(ParentIn(Pids(list)), nodes))
  {
    hide Distinct;
    if list == [] {
      FilterNone(ParentIn({}), nodes);
      assert Pids(list) == {};
    } else {
      assert list == [list[0]] + list[1..];
      DistinctParts(list);
      NextLayerIs(nodes, list[1..]);
      ChildrenOrdered(nodes, list[0].pid);
      assert Pids(list) == {list[0].pid} + Pids(list[1..]);
      FilterSplits(IsChildOf(list[0].pid), ParentIn(Pids(list[1..])), ParentIn(Pids(list)), nodes);
    }
  }

  /** Emitting a layer's subtrees emits the layer and everything below it. */
  lemma {:induction false} ForestLayers(nodes: seq<TreeNode>, list: seq<TreeNode>, depth: nat)
    requires Layered(nodes) && AllAt(nodes, list, depth)
    ensures AllAt(nodes, NextLayer(nodes, list), depth + 1)
    ensures multiset(Forest(nodes, list, depth)) == multiset(list) + multiset(Forest(nodes, NextLayer(nodes, list), depth + 1))
    decreases |list|
  {
    if list != [] {
      ForestLayers(nodes, list[1..], depth);
      SubtreeParts(nodes, list[0]);
      hide Layered;
      hide Subtree;
      var c, rest := Children(nodes, list[0].pid), NextLayer(nodes, list[1..]);
      assert NextLayer(nodes, list) == c + rest;
      hide NextLayer;
      ForestAppend(nodes, c, rest, depth + 1);
      ForestHead(nodes, list, depth);
      hide AllAt;
      hide Forest;
      SumsAgree(list, Forest(nodes, c, depth + 1), Forest(nodes, list[1..], depth), Forest(nodes, rest, depth + 1));
    }
  }

  lemma SumsAgree<T>(list: seq<T>, c: seq<T>, tail: seq<T>, rest: seq<T>)
    requires list != [] && multiset(tail) == multiset(list[1..]) + multiset(rest)
    ensures multiset(([list[0]] + c) + tail) == multiset(list) + multiset(c + rest)
  {
    assert list == [list[0]] + list[1..];
    assert multiset(list) == multiset{list[0]} + multiset(list[1..]);
  }

  lemma ForestHead(nodes: seq<TreeNode>, list: seq<TreeNode>, depth: nat)
    requires Layered(nodes) && AllAt(nodes, list, depth) && list != []
    ensures AllAt(nodes, list[1..], depth)
    ensures Forest(nodes, list, depth) == Subtree(nodes, list[0]) + Forest(nodes, list[1..], depth)
  {
    hide Layered;
    hide Subtree;
  }

  lemma {:induction false} ForestAppend(nodes: seq<TreeNode>, a: seq<TreeNode>, b: seq<TreeNode>, depth: nat)
    requires Layered(nodes) && AllAt(nodes, a, depth) && AllAt(nodes, b, depth)
    ensures AllAt(nodes, a + b, depth)
    ensures Forest(nodes, a + b, depth) == Forest(nodes, a, depth) + Forest(nodes, b, depth)
    decreases |a|
  {
    hide Layered;
    hide Subtree;
    if a == [] {
      assert a + b == b;
    } else {
      assert (a + b)[0] == a[0] && (a + b)[1..] == a[1..] + b;
      ForestAppend(nodes, a[1..], b, depth);
      ForestHead(nodes, a, depth);
      ForestHead(nodes, a + b, depth);
      hide Forest;
    }
  }

  lemma LayerBelow(nodes: seq<TreeNode>, root: TreeNode, list: seq<TreeNode>, depth: nat)
    requires Planned(nodes, root)
    requires multiset(list) == multiset(Filter(AtDepth(depth), nodes))
    ensures multiset(NextLayer(nodes, list)) == multiset(Filter(AtDepth(depth + 1), nodes))
  {
    var layer := Filter(AtDepth(depth), nodes);
    forall n ensures n in list <==> n in layer {
      assert n in list <==> n in multiset(list);
      assert n in layer <==> n in multiset(layer);
    }
    DistinctLayer(nodes, AtDepth(depth), list);
    NextLayerIs(nodes, list);
    forall c | c in nodes ensures ParentIn(Pids(list))(c) <==> AtDepth(depth + 1)(c) {
      if c != root {
        var p :| p in nodes && c.parentPid == Some(p.pid) && c.depth == p.depth + 1;
        if c.depth == depth + 1 {
          assert p in layer;
        }
        if p.pid in Pids(list) {
          var q :| q in list && q.pid == p.pid;
          SamePid(nodes, p, q);
        }
      }
    }
    FilterAgree(ParentIn(Pids(list)), AtDepth(depth + 1), nodes);
  }

  lemma {:induction false} FilterDistinct(keep: TreeNode -> bool, nodes: seq<TreeNode>)
    ensures PidBag(Filter(keep, nodes)) <= PidBag(nodes)
  {
    if nodes != [] {
      FilterDistinct(keep, nodes[1..]);
      var rest := Filter(keep, nodes[1..]);
      assert ([nodes[0]] + rest)[1..] == rest;
    }
  }

  /** Filtering and reordering keep PIDs distinct. */
  lemma DistinctLayer(nodes: seq<TreeNode>, keep: TreeNode -> bool, list: seq<TreeNode>)
    requires Distinct(nodes) && multiset(list) == multiset(Filter(keep, nodes))
    ensures Distinct(list)
  {
    FilterDistinct(keep, nodes);
    BagPermutes(list, Filter(keep, nodes));
    hide PidBag;
    forall pid ensures PidBag(list)[pid] <= 1 {
      assert PidBag(nodes)[pid] <= 1;
    }
  }

  lemma {:induction false} DistinctOnce(nodes: seq<TreeNode>, n: TreeNode)
    requires Distinct(nodes)
    ensures multiset(nodes)[n] <= 1
  {
    hide Distinct;
    if nodes != [] {
      assert nodes == [nodes[0]] + nodes[1..];
      DistinctParts(nodes);
      DistinctOnce(nodes[1..], n);
    }
  }

  lemma {:induction false} ForestCovers(nodes: seq<TreeNode>, root: TreeNode, list: seq<TreeNode>, depth: nat)
    requires Planned(nodes, root) && Layered(nodes) && AllAt(nodes, list, depth)
    requires multiset(list) == multiset(Filter(AtDepth(depth), nodes))
    ensures multiset(Forest(nodes, list, depth)) == multiset(Filter(AtLeastDepth(depth), nodes))
    decreases MaxDepth(nodes) + 1 - depth
  {
    if depth > MaxDepth(nodes) {
      FilterNone(AtDepth(depth), nodes);
      FilterNone(AtLeastDepth(depth), nodes);
      MultisetSize(list, []);
    } else {
      ForestLayers(nodes, list, depth);
      LayerBelow(nodes, root, list, depth);
      ForestCovers(nodes, root, NextLayer(nodes, list), depth + 1);
      FilterSplits(AtDepth(depth), AtLeastDepth(depth + 1), AtLeastDepth(depth), nodes);
    }
  }

  /** The preorder of a planned tree shows every process exactly once. */
  lemma PreorderIsWholeTree(nodes: seq<TreeNode>, root: TreeNode)
    requires Planned(nodes, root)
    ensures Layered(nodes) && LastRoot(nodes) == Some(root)
    ensures multiset(Subtree(nodes, root)) == multiset(nodes)
  {
    PlannedLayered(nodes, root);
    OnlyRoot(nodes, root);
    var layer := Filter(AtDepth(0), nodes);
    RootLayer(nodes, root);
    ForestCovers(nodes, root, [root], 0);
    FilterAll(AtLeastDepth(0), nodes);
    hide Subtree;
    assert Forest(nodes, [root], 0) == Subtree(nodes, root) + Forest(nodes, [], 0);
  }

  lemma {:induction false} OnlyRoot(nodes: seq<TreeNode>, root: TreeNode)
    requires root in nodes && root.depth == 0
    requires forall c | c in nodes && c != root :: c.depth > 0
    ensures LastRoot(nodes) == Some(root)
  {
    var last := nodes[|nodes| - 1];
    assert last in nodes;
    if last.depth != 0 {
      assert nodes == nodes[..|nodes| - 1] + [last];
      OnlyRoot(nodes[..|nodes| - 1], root);
    }
  }

  lemma RootLayer(nodes: seq<TreeNode>, root: TreeNode)
    requires Planned(nodes, root)
    ensures multiset([root]) == multiset(Filter(AtDepth(0), nodes))
  {
    var layer := Filter(AtDepth(0), nodes);
    DistinctLayer(nodes, AtDepth(0), layer);
    DistinctOnce(layer, root);
    assert root in layer;
    forall n ensures multiset(layer)[n] == multiset([root])[n] {
      if n != root {
        assert n !in layer;
      }
    }
  }

  // ----- The ancestor chain

  datatype ProcessInfo = ProcessInfo(pid: nat, parentPid: Option<nat>, isProtected: bool)

  /** `index_by_pid`: the first entry of a repeated PID wins. */
  function Lookup(table: seq<ProcessInfo>, pid: nat): (r: Option<ProcessInfo>)
    ensures r.Some? ==> r.value in table && r.value.pid == pid
    ensures r.None? ==> forall p | p in table :: p.pid != pid
  {
    if table == [] then None
    else if table[0].pid == pid then Some(table[0])
    else Lookup(table[1..], pid)
  }

  /** The PID the walk would look at next. */
  function NextPid(target: ProcessInfo, chain: seq<ProcessInfo>): Option<nat> {
    if chain == [] then target.parentPid else chain[|chain| - 1].parentPid
  }

  /** A chain follows parent links from the target, never meeting a PID twice. */
  ghost predicate AncestorChain(table: seq<ProcessInfo>, target: ProcessInfo, chain: seq<ProcessInfo>) {
    && (forall i | 0 <= i < |chain| :: NextPid(target, chain[..i]) == Some(chain[i].pid)
                                       && Lookup(table, chain[i].pid) == Some(chain[i]))
    && (forall i | 0 <= i < |chain| :: chain[i].pid != target.pid)
    && (forall i, j | 0 <= i < j < |chain| :: chain[i].pid != chain[j].pid)
  }

  predicate Met(target: ProcessInfo, chain: seq<ProcessInfo>, pid: nat) {
    pid == target.pid || exists i | 0 <= i < |chain| :: chain[i].pid == pid
  }

  /** The chain cannot be extended: no parent, a parent already met, or a parent not in the table. */
  ghost predicate Exhausted(table: seq<ProcessInfo>, target: ProcessInfo, chain: seq<ProcessInfo>) {
    var next := NextPid(target, chain);
    next.None? || Met(target, chain, next.value) || Lookup(table, next.value).None?
  }

  /** `ancestor_chain`: nearest first, bounded, and as long as it can be. */
  method AncestorsOf(table: seq<ProcessInfo>, target: ProcessInfo) returns (chain: seq<ProcessInfo>)
    ensures AncestorChain(table, target, chain) && |chain| <= 64
    ensures |chain| < 64 ==> Exhausted(table, target, chain)
  {
    chain := [];
    var seen := {target.pid};
    var parent := target.parentPid;
    for k := 0 to ANCESTOR_WALK_MAX
      invariant |chain| == k && parent == NextPid(target, chain)
      invariant forall pid :: pid in seen <==> Met(target, chain, pid)
      invariant AncestorChain(table, target, chain)
    {
      if parent.None? || parent.value in seen {
        return;
      }
      var info := Lookup(table, parent.value);
      if info.None? {
        return;
      }
      seen := seen + {parent.value};
      ghost var before := chain;
      chain := chain + [info.value];
      ExtendChain(table, target, before, info.value);
      parent := info.value.parentPid;
    }
  }

  lemma ExtendChain(table: seq<ProcessInfo>, target: ProcessInfo, chain: seq<ProcessInfo>, next: ProcessInfo)
    requires AncestorChain(table, target, chain)
    requires NextPid(target, chain) == Some(next.pid) && !Met(target, chain, next.pid)
    requires Lookup(table, next.pid) == Some(next)
    ensures AncestorChain(table, target, chain + [next])
    ensures forall pid :: Met(target, chain + [next], pid) <==> Met(target, chain, pid) || pid == next.pid
  {
    var more := chain + [next];
    assert more[..|chain|] == chain;
    assert forall i | 0 <= i < |chain| :: more[..i] == chain[..i];
    assert more[|chain|] == next;
    assert forall i | 0 <= i < |chain| :: more[i] == chain[i];
  }

  /** Each step of a chain is determined by the table and the steps before it. */
  lemma {:induction false} PrefixUnique(table: seq<ProcessInfo>, target: ProcessInfo, a: seq<ProcessInfo>, b: seq<ProcessInfo>,
                                        n: nat)
    requires AncestorChain(table, target, a) && AncestorChain(table, target, b) && n <= |a| && n <= |b|
    ensures a[..n] == b[..n]
    decreases n
  {
    hide AncestorChain;
    hide Lookup;
    hide NextPid;
    if n > 0 {
      var i := n - 1;
      ChainStep(table, target, a, i);
      ChainStep(table, target, b, i);
      PrefixUnique(table, target, a, b, i);
      SameNext(table, target, a[..i], a[i], b[i]);
      LongerPrefix(a, b, i);
    }
  }

  lemma LongerPrefix<T>(a: seq<T>, b: seq<T>, i: nat)
    requires i < |a| && i < |b| && a[..i] == b[..i] && a[i] == b[i]
    ensures a[..i+1] == b[..i+1]
  {
    assert a[..i+1] == a[..i] + [a[i]];
  }

  lemma ChainStep(table: seq<ProcessInfo>, target: ProcessInfo, a: seq<ProcessInfo>, i: nat)
    requires AncestorChain(table, target, a) && i < |a|
    ensures NextPid(target, a[..i]) == Some(a[i].pid) && Lookup(table, a[i].pid) == Some(a[i])
  {
  }

  /** The chain is the only one of its length: two walks over one table agree. */
  lemma ChainUnique(table: seq<ProcessInfo>, target: ProcessInfo, a: seq<ProcessInfo>, b: seq<ProcessInfo>)
    requires AncestorChain(table, target, a) && AncestorChain(table, target, b) && |a| == |b|
    ensures a == b
  {
    hide AncestorChain;
    PrefixUnique(table, target, a, b, |a|);
    assert a[..|a|] == a && b[..|b|] == b;
  }

  lemma SameNext(table: seq<ProcessInfo>, target: ProcessInfo, chain: seq<ProcessInfo>, x: ProcessInfo, y: ProcessInfo)
    requires NextPid(target, chain) == Some(x.pid) && Lookup(table, x.pid) == Some(x)
    requires NextPid(target, chain) == Some(y.pid) && Lookup(table, y.pid) == Some(y)
    ensures x == y
  {
    hide Lookup;
    hide NextPid;
  }
}
