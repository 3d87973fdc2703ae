/** The recursive browse of an OPC UA address space: a depth-first walk of a possibly cyclic
    graph with one shared set of node ids already listed. */
module Browse {
  import opened Wrappers
  import opened NodeId

  const USIZE_MAX: nat := 0xFFFF_FFFF_FFFF_FFFF

  datatype OpcUaNodeClass = Object | Variable | Method | View | Other(code: U32)

  datatype OpcUaNode = OpcUaNode(
    nodeId: OpcUaNodeId,
    browseName: string,
    displayName: string,
    nodeClass: OpcUaNodeClass,
    children: seq<OpcUaNode>)

  datatype BrowseError = BrowseError(message: string)

  /** What a single-level browse answers for every node of a finite address space. */
  type Server = map<OpcUaNodeId, Result<seq<OpcUaNode>, BrowseError>>

  /** `n` is one of the references that browsing `parent` returns. */
  ghost predicate Reference(server: Server, parent: OpcUaNodeId, n: OpcUaNode) {
    parent in server && server[parent].Ok? && n in server[parent].value
  }

  /** Every referenced node is itself a node of the server, and a single-level browse lists
      nodes without children. */
  ghost predicate ValidServer(server: Server) {
    forall parent, n :: Reference(server, parent, n) ==> n.nodeId in server && n.children == []
  }

  /** No node is reported with two different classes. */
  ghost predicate OneClassPerNode(server: Server) {
    forall p, m, q, n :: Reference(server, p, m) && Reference(server, q, n) && m.nodeId == n.nodeId
                         ==> m.nodeClass == n.nodeClass
  }

  // ---- The walk as a function of the set of ids already seen ----

  datatype Walked = Walked(nodes: Result<seq<OpcUaNode>, BrowseError>, seen: set<OpcUaNodeId>)

  function SaturatingSucc(depth: nat): nat {
    if depth < USIZE_MAX then depth + 1 else depth
  }

  predicate AtLimit(depth: nat, maxDepth: Option<nat>) {
    maxDepth.Some? && depth >= maxDepth.value
  }

  ghost function Walk(server: Server, id: OpcUaNodeId, depth: nat, maxDepth: Option<nat>, seen: set<OpcUaNodeId>): (r: Walked)
    requires ValidServer(server) && id in server && seen <= server.Keys
    ensures seen <= r.seen <= server.Keys
    decreases server.Keys - seen, if server[id].Ok? then |server[id].value| + 1 else 0
  {
    if AtLimit(depth, maxDepth) then Walked(Ok([]), seen)
    else if server[id].Err? then Walked(Err(server[id].error), seen)
    else
      assert forall n :: n in server[id].value ==> Reference(server, id, n);
      WalkAll(server, server[id].value, depth, maxDepth, seen)
  }

  ghost function WalkAll(server: Server, raw: seq<OpcUaNode>, depth: nat, maxDepth: Option<nat>, seen: set<OpcUaNodeId>): (r: Walked)
    requires ValidServer(server) && seen <= server.Keys
    requires forall n :: n in raw ==> n.nodeId in server
    ensures seen <= r.seen <= server.Keys
    decreases server.Keys - seen, |raw|
  {
    if raw == [] then Walked(Ok([]), seen)
    else if raw[0].nodeId in seen then WalkAll(server, raw[1..], depth, maxDepth, seen)
    else
      var sub := WalkNode(server, raw[0], depth, maxDepth, seen);
      if sub.nodes.Err? then sub
      else Prepend(sub.nodes.value, WalkAll(server, raw[1..], depth, maxDepth, sub.seen))
  }

  /** Lists one node seen for the first time, with its subtree when it is an Object. */
  ghost function WalkNode(server: Server, n: OpcUaNode, depth: nat, maxDepth: Option<nat>, seen: set<OpcUaNodeId>): (r: Walked)
    requires ValidServer(server) && seen <= server.Keys
    requires n.nodeId in server && n.nodeId !in seen
    ensures seen + {n.nodeId} <= r.seen <= server.Keys
    ensures r.nodes.Ok? ==> |r.nodes.value| == 1
    decreases server.Keys - seen, 0
  {
    var sub := if n.nodeClass.Object?
               then Walk(server, n.nodeId, SaturatingSucc(depth), maxDepth, seen + {n.nodeId})
               else Walked(Ok([]), seen + {n.nodeId});
    if sub.nodes.Err? then sub
    else Walked(Ok([n.(children := n.children + sub.nodes.value)]), sub.seen)
  }

  function Prepend(nodes: seq<OpcUaNode>, rest: Walked): Walked {
    if rest.nodes.Err? then rest else Walked(Ok(nodes + rest.nodes.value), rest.seen)
  }

  /** `browse_all`: the root is seen before the walk starts. */
  ghost function BrowseAll(server: Server, root: OpcUaNodeId, maxDepth: Option<nat>): Walked
    requires ValidServer(server) && root in server
  {
    Walk(server, root, 0, maxDepth, {root})
  }

  // ---- The walk as the program runs it, on one shared set ----

  class SeenSet {
    var ids: set<OpcUaNodeId>

    constructor ()
      ensures ids == {}
    {
      ids := {};
    }

    /** Adds `id` and tells whether it was new. */
    method Insert(id: OpcUaNodeId) returns (isNew: bool)
      modifies this
      ensures ids == old(ids) + {id}
      ensures isNew <==> id !in old(ids)
    {
      isNew := id !in ids;
      ids := ids + {id};
    }
  }

  method BrowseRecursive(server: Server, id: OpcUaNodeId, depth: nat, maxDepth: Option<nat>, seen: SeenSet)
    returns (r: Result<seq<OpcUaNode>, BrowseError>)
    requires ValidServer(server) && id in server && seen.ids <= server.Keys
    modifies seen
    ensures Walked(r, seen.ids) == Walk(server, id, depth, maxDepth, old(seen.ids))
    decreases server.Keys - seen.ids
  {
    if maxDepth.Some? && depth >= maxDepth.value {
      return Ok([]);
    }
    if server[id].Err? {
      return Err(server[id].error);
    }
    var raw := server[id].value;
    assert forall n :: n in raw ==> Reference(server, id, n);
    ghost var whole := WalkAll(server, raw, depth, maxDepth, seen.ids);
    var nodes: seq<OpcUaNode> := [];
    assert raw[0..] == raw;
    assert whole.nodes.Ok? ==> [] + whole.nodes.value == whole.nodes.value;
    for i := 0 to |raw|
      invariant old(seen.ids) <= seen.ids <= server.Keys
      invariant whole == Prepend(nodes, WalkAll(server, raw[i..], depth, maxDepth, seen.ids))
    {
      var node := raw[i];
      assert raw[i..][0] == node && raw[i..][1..] == raw[i + 1..];
      ghost var before, listed := seen.ids, nodes;
      var isNew := seen.Insert(node.nodeId);
      if !isNew {
        assert seen.ids == before;
        continue;
      }
      if node.nodeClass.Object? {
        var children := BrowseRecursive(server, node.nodeId, SaturatingSucc(depth), maxDepth, seen);
        if children.Err? {
          return children;
        }
        node := node.(children := node.children + children.value);
      } else {
        assert raw[i].children + [] == raw[i].children;
      }
      nodes := nodes + [node];
      assert WalkNode(server, raw[i], depth, maxDepth, before) == Walked(Ok([node]), seen.ids);
      PrependTwice(listed, [node], WalkAll(server, raw[i + 1..], depth, maxDepth, seen.ids));
    }
    assert nodes + [] == nodes;
    return Ok(nodes);
  }

  lemma PrependTwice(a: seq<OpcUaNode>, b: seq<OpcUaNode>, rest: Walked)
    ensures Prepend(a, Prepend(b, rest)) == Prepend(a + b, rest)
  {
    if rest.nodes.Ok? {
      assert a + (b + rest.nodes.value) == a + b + rest.nodes.value;
    }
  }

  method BrowseFromRoot(server: Server, root: OpcUaNodeId, maxDepth: Option<nat>) returns (r: Result<seq<OpcUaNode>, BrowseError>)
    requires ValidServer(server) && root in server
    ensures r == BrowseAll(server, root, maxDepth).nodes
  {
    var seen := new SeenSet();
    var _ := seen.Insert(root);
    assert seen.ids == {root};
    r := BrowseRecursive(server, root, 0, maxDepth, seen);
  }

  // ---- What a result tree contains ----

  /** The ids of a result tree in pre-order. */
  ghost function Ids(nodes: seq<OpcUaNode>): seq<OpcUaNodeId> {
    if nodes == [] then [] else [nodes[0].nodeId] + Ids(nodes[0].children) + Ids(nodes[1..])
  }

  ghost function IdSet(nodes: seq<OpcUaNode>): set<OpcUaNodeId> {
    set id | id in Ids(nodes)
  }

  ghost predicate NoDuplicates(ids: seq<OpcUaNodeId>) {
    forall i, j :: 0 <= i < j < |ids| ==> ids[i] != ids[j]
  }

  ghost function Height(nodes: seq<OpcUaNode>): nat {
    if nodes == [] then 0
    else
      var here, rest := 1 + Height(nodes[0].children), Height(nodes[1..]);
      if here > rest then here else rest
  }

  /** Every node is, children aside, a reference of its parent, and only Objects have children. */
  ghost predicate TreeOfReferences(server: Server, parent: OpcUaNodeId, nodes: seq<OpcUaNode>)
    decreases nodes
  {
    nodes == [] || (
      && Reference(server, parent, nodes[0].(children := []))
      && (nodes[0].children != [] ==> nodes[0].nodeClass.Object?)
      && TreeOfReferences(server, nodes[0].nodeId, nodes[0].children)
      && TreeOfReferences(server, parent, nodes[1..]))
  }

  /** Browsing `id` succeeds and lists only members of `s`. */
  ghost predicate ChildrenIn(server: Server, id: OpcUaNodeId, s: set<OpcUaNodeId>) {
    id in server && server[id].Ok? && forall n :: n in server[id].value ==> n.nodeId in s
  }

  /** The children of every Object of the tree are members of `s`. */
  ghost predicate ClosedTree(server: Server, nodes: seq<OpcUaNode>, s: set<OpcUaNodeId>) {
    nodes == [] || (
      && (nodes[0].nodeClass.Object? ==> ChildrenIn(server, nodes[0].nodeId, s))
      && ClosedTree(server, nodes[0].children, s)
      && ClosedTree(server, nodes[1..], s))
  }

  /** The tree lists each id that was not seen before, and is seen now, exactly once. */
  ghost predicate ListsNew(nodes: seq<OpcUaNode>, before: set<OpcUaNodeId>, after: set<OpcUaNodeId>) {
    && before <= after
    && NoDuplicates(Ids(nodes))
    && IdSet(nodes) == after - before
  }

  lemma {:induction false} IdsAppend(a: seq<OpcUaNode>, b: seq<OpcUaNode>)
    ensures Ids(a + b) == Ids(a) + Ids(b)
  {
    if a == [] {
      assert a + b == b;
    } else {
      assert (a + b)[1..] == a[1..] + b;
      IdsAppend(a[1..], b);
    }
  }

  lemma ListsNewAppend(a: seq<OpcUaNode>, b: seq<OpcUaNode>, s0: set<OpcUaNodeId>, s1: set<OpcUaNodeId>, s2: set<OpcUaNodeId>)
    requires ListsNew(a, s0, s1) && ListsNew(b, s1, s2)
    ensures ListsNew(a + b, s0, s2)
  {
    IdsAppend(a, b);
    forall i, j | 0 <= i < j < |Ids(a + b)|
      ensures Ids(a + b)[i] != Ids(a + b)[j]
    {
      if i < |Ids(a)| <= j {
        assert Ids(a)[i] in IdSet(a) && Ids(b)[j - |Ids(a)|] in IdSet(b);
      }
    }
    assert IdSet(a + b) == IdSet(a) + IdSet(b);
  }

  lemma ListsNewNode(n: OpcUaNode, seen: set<OpcUaNodeId>, after: set<OpcUaNodeId>)
    requires n.nodeId !in seen
    requires ListsNew(n.children, seen + {n.nodeId}, after)
    ensures ListsNew([n], seen, after)
  {
    var ids := Ids([n]);
    assert [n][1..] == [] && Ids([n][1..]) == [];
    assert ids == [n.nodeId] + Ids(n.children);
    forall id ensures id in IdSet([n]) <==> id == n.nodeId || id in IdSet(n.children) {
      assert id in ids <==> id == n.nodeId || id in Ids(n.children);
    }
    forall i, j | 0 <= i < j < |ids|
      ensures ids[i] != ids[j]
    {
      if i == 0 {
        assert Ids(n.children)[j - 1] in IdSet(n.children);
      }
    }
  }

  lemma {:induction false} TreeAppend(server: Server, parent: OpcUaNodeId, a: seq<OpcUaNode>, b: seq<OpcUaNode>)
    requires TreeOfReferences(server, parent, a) && TreeOfReferences(server, parent, b)
    ensures TreeOfReferences(server, parent, a + b)
    ensures Height(a + b) == if Height(a) > Height(b) then Height(a) else Height(b)
  {
    if a == [] {
      assert a + b == b;
    } else {
      assert (a + b)[1..] == a[1..] + b;
      TreeAppend(server, parent, a[1..], b);
    }
  }

  lemma {:induction false} ClosedAppend(server: Server, a: seq<OpcUaNode>, b: seq<OpcUaNode>, s: set<OpcUaNodeId>)
    requires ClosedTree(server, a, s) && ClosedTree(server, b, s)
    ensures ClosedTree(server, a + b, s)
  {
    if a == [] {
      assert a + b == b;
    } else {
      assert (a + b)[1..] == a[1..] + b;
      ClosedAppend(server, a[1..], b, s);
    }
  }

  lemma {:induction false} ClosedGrows(server: Server, nodes: seq<OpcUaNode>, s: set<OpcUaNodeId>, t: set<OpcUaNodeId>)
    requires ClosedTree(server, nodes, s) && s <= t
    ensures ClosedTree(server, nodes, t)
    decreases nodes
  {
    if nodes != [] {
      ClosedGrows(server, nodes[0].children, s, t);
      ClosedGrows(server, nodes[1..], s, t);
    }
  }

  /** What a walk that lists `nodes` below `parent`, from `before` to `after`, guarantees. */
  ghost predicate GoodListing(server: Server, parent: OpcUaNodeId, nodes: seq<OpcUaNode>, depth: nat, maxDepth: Option<nat>,
                              before: set<OpcUaNodeId>, after: set<OpcUaNodeId>)
  {
    && ListsNew(nodes, before, after)
    && TreeOfReferences(server, parent, nodes)
    && (maxDepth.Some? && depth <= maxDepth.value <= USIZE_MAX ==> depth + Height(nodes) <= maxDepth.value)
    && (maxDepth.None? ==> ClosedTree(server, nodes, after))
  }

  lemma WalkIsGood(server: Server, id: OpcUaNodeId, depth: nat, maxDepth: Option<nat>, seen: set<OpcUaNodeId>)
    requires ValidServer(server) && id in server && seen <= server.Keys
    ensures var r := Walk(server, id, depth, maxDepth, seen);
            r.nodes.Ok? ==>
              && GoodListing(server, id, r.nodes.value, depth, maxDepth, seen, r.seen)
              && (maxDepth.None? ==> ChildrenIn(server, id, r.seen))
    decreases server.Keys - seen, if server[id].Ok? then |server[id].value| + 1 else 0
  {
    if !AtLimit(depth, maxDepth) && server[id].Ok? {
      forall n | n in server[id].value ensures Reference(server, id, n) {}
      WalkAllIsGood(server, id, server[id].value, depth, maxDepth, seen);
    }
  }

  lemma WalkAllIsGood(server: Server, parent: OpcUaNodeId, raw: seq<OpcUaNode>, depth: nat, maxDepth: Option<nat>, seen: set<OpcUaNodeId>)
    requires ValidServer(server) && seen <= server.Keys
    requires !AtLimit(depth, maxDepth)
    requires forall n :: n in raw ==> Reference(server, parent, n)
    ensures var r := WalkAll(server, raw, depth, maxDepth, seen);
            r.nodes.Ok? ==>
              && GoodListing(server, parent, r.nodes.value, depth, maxDepth, seen, r.seen)
              && forall n :: n in raw ==> n.nodeId in r.seen
    decreases server.Keys - seen, |raw|
  {
    if raw != [] {
      assert Reference(server, parent, raw[0]);
      if raw[0].nodeId in seen {
        WalkAllIsGood(server, parent, raw[1..], depth, maxDepth, seen);
      } else {
        var sub := WalkNode(server, raw[0], depth, maxDepth, seen);
        if sub.nodes.Ok? {
          WalkNodeIsGood(server, parent, raw[0], depth, maxDepth, seen);
          WalkAllIsGood(server, parent, raw[1..], depth, maxDepth, sub.seen);
          var rest := WalkAll(server, raw[1..], depth, maxDepth, sub.seen);
          if rest.nodes.Ok? {
            GoodAppend(server, parent, sub.nodes.value, rest.nodes.value, depth, maxDepth, seen, sub.seen, rest.seen);
          }
        }
      }
    }
  }

  /** A node whose children are well listed is well listed itself. */
  lemma GoodNode(server: Server, parent: OpcUaNodeId, m: OpcUaNode, depth: nat, maxDepth: Option<nat>, seen: set<OpcUaNodeId>,
                 after: set<OpcUaNodeId>)
    requires Reference(server, parent, m.(children := [])) && m.nodeId !in seen && !AtLimit(depth, maxDepth)
    requires GoodListing(server, m.nodeId, m.children, SaturatingSucc(depth), maxDepth, seen + {m.nodeId}, after)
    requires m.nodeClass.Object? || m.children == []
    requires maxDepth.None? && m.nodeClass.Object? ==> ChildrenIn(server, m.nodeId, after)
    ensures GoodListing(server, parent, [m], depth, maxDepth, seen, after)
  {
    ListsNewNode(m, seen, after);
    assert [m][1..] == [];
  }

  lemma EmptyListing(server: Server, parent: OpcUaNodeId, depth: nat, maxDepth: Option<nat>, seen: set<OpcUaNodeId>)
    ensures GoodListing(server, parent, [], depth, maxDepth, seen, seen)
  {}

  lemma WalkNodeIsGood(server: Server, parent: OpcUaNodeId, n: OpcUaNode, depth: nat, maxDepth: Option<nat>, seen: set<OpcUaNodeId>)
    requires ValidServer(server) && seen <= server.Keys
    requires !AtLimit(depth, maxDepth)
    requires Reference(server, parent, n) && n.nodeId !in seen
    ensures var r := WalkNode(server, n, depth, maxDepth, seen);
            r.nodes.Ok? ==> GoodListing(server, parent, r.nodes.value, depth, maxDepth, seen, r.seen)
    decreases server.Keys - seen, 0
  {
    var r := WalkNode(server, n, depth, maxDepth, seen);
    if r.nodes.Ok? {
      var m := r.nodes.value[0];
      assert m.(children := []) == n && r.nodes.value == [m];
      if n.nodeClass.Object? {
        WalkIsGood(server, n.nodeId, SaturatingSucc(depth), maxDepth, seen + {n.nodeId});
        assert m.children == Walk(server, n.nodeId, SaturatingSucc(depth), maxDepth, seen + {n.nodeId}).nodes.value;
      } else {
        EmptyListing(server, n.nodeId, SaturatingSucc(depth), maxDepth, seen + {n.nodeId});
      }
      GoodNode(server, parent, m, depth, maxDepth, seen, r.seen);
    }
  }

  lemma GoodAppend(server: Server, parent: OpcUaNodeId, a: seq<OpcUaNode>, b: seq<OpcUaNode>, depth: nat, maxDepth: Option<nat>,
                   s0: set<OpcUaNodeId>, s1: set<OpcUaNodeId>, s2: set<OpcUaNodeId>)
    requires GoodListing(server, parent, a, depth, maxDepth, s0, s1)
    requires GoodListing(server, parent, b, depth, maxDepth, s1, s2)
    ensures GoodListing(server, parent, a + b, depth, maxDepth, s0, s2)
  {
    ListsNewAppend(a, b, s0, s1, s2);
    TreeAppend(server, parent, a, b);
    if maxDepth.None? {
      ClosedGrows(server, a, s1, s2);
      ClosedAppend(server, a, b, s2);
    }
  }

  // ---- Reachability ----

  /** A chain of references: the first from `root`, each later one from the Object before it. */
  ghost predicate Chain(server: Server, root: OpcUaNodeId, path: seq<OpcUaNode>) {
    && path != []
    && Reference(server, root, path[0])
    && forall i :: 0 <= i < |path| - 1 ==>
         path[i].nodeClass.Object? && Reference(server, path[i].nodeId, path[i + 1])
  }

  ghost predicate ReachableAs(server: Server, root: OpcUaNodeId, n: OpcUaNode) {
    exists path :: Chain(server, root, path) && path[|path| - 1] == n
  }

  ghost predicate Reachable(server: Server, root: OpcUaNodeId, id: OpcUaNodeId) {
    exists n :: ReachableAs(server, root, n) && n.nodeId == id
  }

  /** Nodes the walk expands: the root, and every Object reachable from it. */
  ghost predicate Expandable(server: Server, root: OpcUaNodeId, id: OpcUaNodeId) {
    id == root || exists n :: ReachableAs(server, root, n) && n.nodeId == id && n.nodeClass.Object?
  }

  lemma ReferenceOfExpandable(server: Server, root: OpcUaNodeId, parent: OpcUaNodeId, n: OpcUaNode)
    requires Expandable(server, root, parent) && Reference(server, parent, n)
    ensures ReachableAs(server, root, n)
  {
    if parent == root {
      assert Chain(server, root, [n]) && [n][|[n]| - 1] == n;
    } else {
      var m :| ReachableAs(server, root, m) && m.nodeId == parent && m.nodeClass.Object?;
      var path :| Chain(server, root, path) && path[|path| - 1] == m;
      var longer := path + [n];
      assert Chain(server, root, longer) && longer[|longer| - 1] == n;
    }
  }

  /** Whatever a tree of references below an expandable node lists is reachable. */
  lemma {:induction false} TreeIsReachable(server: Server, root: OpcUaNodeId, parent: OpcUaNodeId, nodes: seq<OpcUaNode>, id: OpcUaNodeId)
    requires Expandable(server, root, parent) && TreeOfReferences(server, parent, nodes)
    requires id in Ids(nodes)
    ensures Reachable(server, root, id)
    decreases nodes
  {
    var bare := nodes[0].(children := []);
    ReferenceOfExpandable(server, root, parent, bare);
    if id == nodes[0].nodeId {
      assert ReachableAs(server, root, bare) && bare.nodeId == id;
    } else if id in Ids(nodes[0].children) {
      assert nodes[0].children != [];
      TreeIsReachable(server, root, nodes[0].nodeId, nodes[0].children, id);
    } else {
      TreeIsReachable(server, root, parent, nodes[1..], id);
    }
  }

  /** In a closed tree, each listed Object was browsed and all its references are in `s`. */
  lemma {:induction false} ListedObjectIsClosed(server: Server, parent: OpcUaNodeId, nodes: seq<OpcUaNode>, s: set<OpcUaNodeId>,
                                                q: OpcUaNodeId, n: OpcUaNode)
    requires OneClassPerNode(server) && TreeOfReferences(server, parent, nodes) && ClosedTree(server, nodes, s)
    requires Reference(server, q, n) && n.nodeClass.Object? && n.nodeId in Ids(nodes)
    ensures ChildrenIn(server, n.nodeId, s)
    decreases nodes
  {
    if n.nodeId == nodes[0].nodeId {
      assert Reference(server, parent, nodes[0].(children := []));
    } else if n.nodeId in Ids(nodes[0].children) {
      ListedObjectIsClosed(server, nodes[0].nodeId, nodes[0].children, s, q, n);
    } else {
      ListedObjectIsClosed(server, parent, nodes[1..], s, q, n);
    }
  }

  /** An unlimited walk sees every node of every chain, and browsed each of its Objects. */
  lemma {:induction false} ChainIsSeen(server: Server, root: OpcUaNodeId, nodes: seq<OpcUaNode>, seen: set<OpcUaNodeId>,
                                       path: seq<OpcUaNode>, k: nat)
    requires OneClassPerNode(server) && Chain(server, root, path) && k < |path|
    requires GoodListing(server, root, nodes, 0, None, {root}, seen) && ChildrenIn(server, root, seen)
    ensures path[k].nodeId in seen
    ensures path[k].nodeClass.Object? ==> ChildrenIn(server, path[k].nodeId, seen)
  {
    var from := if k == 0 then root else path[k - 1].nodeId;
    if k > 0 {
      ChainIsSeen(server, root, nodes, seen, path, k - 1);
    }
    assert Reference(server, from, path[k]);
    if path[k].nodeClass.Object? && path[k].nodeId != root {
      assert path[k].nodeId in IdSet(nodes);
      ListedObjectIsClosed(server, root, nodes, seen, from, path[k]);
    }
  }

  // ---- The main results ----

  /** With or without a depth limit, a browse lists each node at most once, never the root,
      only reachable nodes, along edges that exist and start at Objects, and no deeper than
      the limit. */
  lemma BrowseIsSound(server: Server, root: OpcUaNodeId, maxDepth: Option<nat>)
    requires ValidServer(server) && root in server
    requires BrowseAll(server, root, maxDepth).nodes.Ok?
    ensures var nodes := BrowseAll(server, root, maxDepth).nodes.value;
            && NoDuplicates(Ids(nodes))
            && root !in Ids(nodes)
            && TreeOfReferences(server, root, nodes)
            && (forall id :: id in Ids(nodes) ==> Reachable(server, root, id))
            && (maxDepth.Some? && maxDepth.value <= USIZE_MAX ==> Height(nodes) <= maxDepth.value)
  {
    WalkIsGood(server, root, 0, maxDepth, {root});
    var nodes := BrowseAll(server, root, maxDepth).nodes.value;
    assert root !in IdSet(nodes);
    forall id | id in Ids(nodes) ensures Reachable(server, root, id) {
      TreeIsReachable(server, root, root, nodes, id);
    }
  }

  /** Without a depth limit, a browse lists exactly the reachable nodes other than the root. */
  lemma BrowseIsComplete(server: Server, root: OpcUaNodeId, id: OpcUaNodeId)
    requires ValidServer(server) && OneClassPerNode(server) && root in server
    requires BrowseAll(server, root, None).nodes.Ok?
    ensures id in Ids(BrowseAll(server, root, None).nodes.value) <==> id != root && Reachable(server, root, id)
  {
    var r := BrowseAll(server, root, None);
    WalkIsGood(server, root, 0, None, {root});
    BrowseIsSound(server, root, None);
    if id != root && Reachable(server, root, id) {
      var n :| ReachableAs(server, root, n) && n.nodeId == id;
      var path :| Chain(server, root, path) && path[|path| - 1] == n;
      ChainIsSeen(server, root, r.nodes.value, r.seen, path, |path| - 1);
      assert id in IdSet(r.nodes.value);
    }
  }

  /** Every node the walk expands answers a single-level browse. */
  ghost predicate AllBrowsable(server: Server, root: OpcUaNodeId) {
    forall id :: Expandable(server, root, id) ==> id in server && server[id].Ok?
  }

  /** Without a depth limit, a browse fails exactly when browsing the root or some reachable
      Object fails. */
  lemma BrowseFailsIff(server: Server, root: OpcUaNodeId)
    requires ValidServer(server) && OneClassPerNode(server) && root in server
    ensures BrowseAll(server, root, None).nodes.Ok? <==> AllBrowsable(server, root)
  {
    var r := BrowseAll(server, root, None);
    if r.nodes.Ok? {
      WalkIsGood(server, root, 0, None, {root});
      forall id | Expandable(server, root, id) ensures id in server && server[id].Ok? {
        if id != root {
          var n :| ReachableAs(server, root, n) && n.nodeId == id && n.nodeClass.Object?;
          var path :| Chain(server, root, path) && path[|path| - 1] == n;
          ChainIsSeen(server, root, r.nodes.value, r.seen, path, |path| - 1);
        }
      }
    }
    if AllBrowsable(server, root) {
      assert Expandable(server, root, root);
      WalkSucceeds(server, root, root, 0, {root});
    }
  }

  lemma WalkSucceeds(server: Server, root: OpcUaNodeId, id: OpcUaNodeId, depth: nat, seen: set<OpcUaNodeId>)
    requires ValidServer(server) && id in server && seen <= server.Keys
    requires AllBrowsable(server, root) && Expandable(server, root, id)
    ensures Walk(server, id, depth, None, seen).nodes.Ok?
    decreases server.Keys - seen, if server[id].Ok? then |server[id].value| + 1 else 0
  {
    forall n | n in server[id].value ensures Reference(server, id, n) {}
    WalkAllSucceeds(server, root, id, server[id].value, depth, seen);
  }

  lemma WalkAllSucceeds(server: Server, root: OpcUaNodeId, parent: OpcUaNodeId, raw: seq<OpcUaNode>, depth: nat, seen: set<OpcUaNodeId>)
    requires ValidServer(server) && seen <= server.Keys
    requires AllBrowsable(server, root) && Expandable(server, root, parent)
    requires forall n :: n in raw ==> Reference(server, parent, n)
    ensures WalkAll(server, raw, depth, None, seen).nodes.Ok?
    decreases server.Keys - seen, |raw|
  {
    if raw != [] {
      var n := raw[0];
      assert Reference(server, parent, n);
      if n.nodeId in seen {
        WalkAllSucceeds(server, root, parent, raw[1..], depth, seen);
      } else {
        ReferenceOfExpandable(server, root, parent, n);
        if n.nodeClass.Object? {
          WalkSucceeds(server, root, n.nodeId, SaturatingSucc(depth), seen + {n.nodeId});
        }
        WalkAllSucceeds(server, root, parent, raw[1..], depth, WalkNode(server, n, depth, None, seen).seen);
      }
    }
  }

  // ---- Depth limits ----

  lemma SubsetSize(s: set<OpcUaNodeId>, t: set<OpcUaNodeId>)
    requires s <= t
    ensures |s| <= |t|
  {
    assert t == s + (t - s);
  }

  /** A limit no smaller than the number of nodes of the server never cuts anything off. */
  lemma LargeLimitIsNoLimit(server: Server, root: OpcUaNodeId, limit: nat)
    requires ValidServer(server) && root in server && limit >= |server|
    ensures BrowseAll(server, root, Some(limit)) == BrowseAll(server, root, None)
  {
    WalkWithoutLimit(server, root, 0, limit, {root});
  }

  lemma WalkWithoutLimit(server: Server, id: OpcUaNodeId, depth: nat, limit: nat, seen: set<OpcUaNodeId>)
    requires ValidServer(server) && id in server && seen <= server.Keys
    requires depth < |seen| && limit >= |server|
    ensures Walk(server, id, depth, Some(limit), seen) == Walk(server, id, depth, None, seen)
    decreases server.Keys - seen, if server[id].Ok? then |server[id].value| + 1 else 0
  {
    SubsetSize(seen, server.Keys);
    assert |server| == |server.Keys|;
    if server[id].Ok? {
      assert forall n :: n in server[id].value ==> Reference(server, id, n);
      WalkAllWithoutLimit(server, server[id].value, depth, limit, seen);
    }
  }

  lemma WalkAllWithoutLimit(server: Server, raw: seq<OpcUaNode>, depth: nat, limit: nat, seen: set<OpcUaNodeId>)
    requires ValidServer(server) && seen <= server.Keys
    requires forall n :: n in raw ==> n.nodeId in server
    requires depth < |seen| && limit >= |server|
    ensures WalkAll(server, raw, depth, Some(limit), seen) == WalkAll(server, raw, depth, None, seen)
    decreases server.Keys - seen, |raw|
  {
    if raw != [] {
      var n := raw[0];
      if n.nodeId in seen {
        WalkAllWithoutLimit(server, raw[1..], depth, limit, seen);
      } else {
        if n.nodeClass.Object? {
          WalkWithoutLimit(server, n.nodeId, SaturatingSucc(depth), limit, seen + {n.nodeId});
        }
        var sub := WalkNode(server, n, depth, None, seen);
        SubsetSize(seen, sub.seen);
        WalkAllWithoutLimit(server, raw[1..], depth, limit, sub.seen);
      }
    }
  }

  function NumberedId(k: U32): OpcUaNodeId {
    OpcUaNodeId(0, Numeric(k))
  }

  function NumberedNode(k: U32, nodeClass: OpcUaNodeClass): OpcUaNode {
    OpcUaNode(NumberedId(k), [], [], nodeClass, [])
  }

  /** 1 lists 2 and 3, 2 lists 3, 3 lists 4: node 3 is first met below 2, at the limit. */
  function ShortcutServer(): Server {
    map[
      NumberedId(1) := Ok([NumberedNode(2, Object), NumberedNode(3, Object)]),
      NumberedId(2) := Ok([NumberedNode(3, Object)]),
      NumberedId(3) := Ok([NumberedNode(4, Object)]),
      NumberedId(4) := Ok([])]
  }

  lemma WalkOfTwo(server: Server, m: OpcUaNode, n: OpcUaNode, m': OpcUaNode, depth: nat, maxDepth: Option<nat>,
                  s0: set<OpcUaNodeId>, s1: set<OpcUaNodeId>)
    requires ValidServer(server) && s0 <= server.Keys && m.nodeId in server && n.nodeId in server
    requires m.nodeId !in s0 && WalkNode(server, m, depth, maxDepth, s0) == Walked(Ok([m']), s1)
    ensures WalkAll(server, [m, n], depth, maxDepth, s0) == Prepend([m'], WalkAll(server, [n], depth, maxDepth, s1))
  {
    assert [m, n][1..] == [n];
  }

  lemma WalkOfOne(server: Server, n: OpcUaNode, depth: nat, maxDepth: Option<nat>, seen: set<OpcUaNodeId>)
    requires ValidServer(server) && seen <= server.Keys && n.nodeId in server
    ensures WalkAll(server, [n], depth, maxDepth, seen) ==
            if n.nodeId in seen then Walked(Ok([]), seen) else WalkNode(server, n, depth, maxDepth, seen)
  {
    assert [n][1..] == [];
    var sub := if n.nodeId in seen then Walked(Ok([]), seen) else WalkNode(server, n, depth, maxDepth, seen);
    assert sub.nodes.Ok? ==> sub.nodes.value + [] == sub.nodes.value;
  }

  lemma ShortcutServerIsValid()
    ensures ValidServer(ShortcutServer()) && OneClassPerNode(ShortcutServer())
  {}

  /** A finite limit loses nodes within the limit: node 4 is two references away from the
      root, and a browse of depth two does not list it. */
  lemma LimitedBrowseIsIncomplete()
    ensures var server, root := ShortcutServer(), NumberedId(1);
            && ValidServer(server) && OneClassPerNode(server) && root in server
            && BrowseAll(server, root, Some(2)).nodes.Ok?
            && (exists path: seq<OpcUaNode> :: Chain(server, root, path) && |path| == 2 && path[1].nodeId == NumberedId(4))
            && NumberedId(4) !in Ids(BrowseAll(server, root, Some(2)).nodes.value)
  {
    ShortcutServerIsValid();
    var server, root := ShortcutServer(), NumberedId(1);
    var n2, n3, n4 := NumberedNode(2, Object), NumberedNode(3, Object), NumberedNode(4, Object);
    assert Chain(server, root, [n3, n4]);
    var s2, s3 := {root, n2.nodeId}, {root, n2.nodeId, n3.nodeId};
    assert {root} + {n2.nodeId} == s2 && s2 + {n3.nodeId} == s3;
    assert n3.children + [] == [] && n2.children + [n3] == [n3];
    WalkOfOne(server, n3, 1, Some(2), s2);
    assert Walk(server, n2.nodeId, 1, Some(2), s2) == Walked(Ok([n3]), s3);
    WalkOfTwo(server, n2, n3, n2.(children := [n3]), 0, Some(2), {root}, s3);
    WalkOfOne(server, n3, 0, Some(2), s3);
    WalkIsGood(server, root, 0, Some(2), {root});
    assert NumberedId(4) !in IdSet(BrowseAll(server, root, Some(2)).nodes.value);
  }

  /** 1 lists 2 as a Variable and 3 as an Object; 3 lists 2 as an Object; 2 lists 4. */
  function ShadowedServer(): Server {
    map[
      NumberedId(1) := Ok([NumberedNode(2, Variable), NumberedNode(3, Object)]),
      NumberedId(2) := Ok([NumberedNode(4, Object)]),
      NumberedId(3) := Ok([NumberedNode(2, Object)]),
      NumberedId(4) := Ok([])]
  }

  lemma ShadowedServerIsValid()
    ensures ValidServer(ShadowedServer())
  {}

  /** A node reported with two classes can hide its subtree: completeness needs one class per node. */
  lemma ShadowedObjectIsNotExpanded()
    ensures var server, root := ShadowedServer(), NumberedId(1);
            && ValidServer(server) && root in server
            && BrowseAll(server, root, None).nodes.Ok?
            && Reachable(server, root, NumberedId(4))
            && NumberedId(4) !in Ids(BrowseAll(server, root, None).nodes.value)
  {
    ShadowedServerIsValid();
    var server, root := ShadowedServer(), NumberedId(1);
    var v2, o2, o3, o4 := NumberedNode(2, Variable), NumberedNode(2, Object), NumberedNode(3, Object), NumberedNode(4, Object);
    var path := [o3, o2, o4];
    assert Chain(server, root, path) && path[|path| - 1] == o4;
    assert ReachableAs(server, root, o4);
    var s2, s3 := {root, v2.nodeId}, {root, v2.nodeId, o3.nodeId};
    assert {root} + {v2.nodeId} == s2 && s2 + {o3.nodeId} == s3;
    assert v2.children + [] == [] && o3.children + [] == [];
    WalkOfTwo(server, v2, o3, v2, 0, None, {root}, s2);
    WalkOfOne(server, o2, 1, None, s3);
    WalkOfOne(server, o3, 0, None, s2);
    WalkIsGood(server, root, 0, None, {root});
    assert NumberedId(4) !in IdSet(BrowseAll(server, root, None).nodes.value);
  }
}
