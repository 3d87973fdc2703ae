/** The order in which a browse lists nodes, and which error it reports. */
module BrowseOrder {
  import opened Wrappers
  import opened NodeId
  import opened Browse

  // ---- Nodes are listed in the order of the references ----

  /** `nodes`, without what was found below them, are some of `refs` in the same order. */
  predicate Subsequence(nodes: seq<OpcUaNode>, refs: seq<OpcUaNode>)
    decreases |refs|
  {
    if nodes == [] then true
    else if refs == [] then false
    else if nodes[0].(children := []) == refs[0] then Subsequence(nodes[1..], refs[1..])
    else Subsequence(nodes, refs[1..])
  }

  /** Below each node its references are listed in the order in which the server returns them. */
  ghost predicate ChildrenInOrder(server: Server, n: OpcUaNode)
    decreases n
  {
    n.children == [] ||
    (&& n.nodeId in server && server[n.nodeId].Ok? && Subsequence(n.children, server[n.nodeId].value)
     && forall m :: m in n.children ==> ChildrenInOrder(server, m))
  }

  ghost predicate ListedInOrder(server: Server, nodes: seq<OpcUaNode>, refs: seq<OpcUaNode>) {
    Subsequence(nodes, refs) && forall m :: m in nodes ==> ChildrenInOrder(server, m)
  }

  lemma {:induction false} SkipReference(nodes: seq<OpcUaNode>, refs: seq<OpcUaNode>)
    requires refs != [] && Subsequence(nodes, refs[1..])
    ensures Subsequence(nodes, refs)
    decreases |refs|, 0
  {
    if nodes != [] && nodes[0].(children := []) == refs[0] {
      if nodes[1..] != [] || refs[1..] != [] {
        TakeLess(nodes, refs[1..]);
      }
    }
  }

  /** What fits in order still fits without its first element. */
  lemma {:induction false} TakeLess(nodes: seq<OpcUaNode>, refs: seq<OpcUaNode>)
    requires nodes != [] && Subsequence(nodes, refs)
    ensures Subsequence(nodes[1..], refs)
    decreases |refs|, 1
  {
    if nodes[0].(children := []) == refs[0] {
      SkipReference(nodes[1..], refs);
    } else {
      TakeLess(nodes, refs[1..]);
      SkipReference(nodes[1..], refs);
    }
  }

  lemma TakeReference(n: OpcUaNode, rest: seq<OpcUaNode>, refs: seq<OpcUaNode>)
    requires refs != [] && n.(children := []) == refs[0] && Subsequence(rest, refs[1..])
    ensures Subsequence([n] + rest, refs)
  {
    assert ([n] + rest)[1..] == rest;
  }

  lemma WalkListsInOrder(server: Server, id: OpcUaNodeId, depth: nat, maxDepth: Option<nat>, seen: set<OpcUaNodeId>)
    requires ValidServer(server) && id in server && seen <= server.Keys
    ensures var r := Walk(server, id, depth, maxDepth, seen);
            r.nodes.Ok? ==> r.nodes.value == [] || (server[id].Ok? && ListedInOrder(server, r.nodes.value, server[id].value))
    decreases server.Keys - seen, if server[id].Ok? then |server[id].value| + 1 else 0
  {
    if !AtLimit(depth, maxDepth) && server[id].Ok? {
      forall n | n in server[id].value ensures Reference(server, id, n) {}
      WalkAllListsInOrder(server, id, server[id].value, depth, maxDepth, seen);
    }
  }

  lemma WalkAllListsInOrder(server: Server, parent: OpcUaNodeId, raw: seq<OpcUaNode>, depth: nat, maxDepth: Option<nat>,
                            seen: set<OpcUaNodeId>)
    requires ValidServer(server) && seen <= server.Keys
    requires forall n :: n in raw ==> Reference(server, parent, n)
    ensures var r := WalkAll(server, raw, depth, maxDepth, seen); r.nodes.Ok? ==> ListedInOrder(server, r.nodes.value, raw)
    decreases server.Keys - seen, |raw|
  {
    if raw != [] {
      assert Reference(server, parent, raw[0]);
      assert forall n :: n in raw ==> Reference(server, parent, n) && n.nodeId in server;
      if raw[0].nodeId in seen {
        WalkAllListsInOrder(server, parent, raw[1..], depth, maxDepth, seen);
        var r := WalkAll(server, raw[1..], depth, maxDepth, seen);
        if r.nodes.Ok? {
          SkipReference(r.nodes.value, raw);
        }
      } else {
        var sub := WalkNode(server, raw[0], depth, maxDepth, seen);
        WalkNodeListsInOrder(server, parent, raw[0], depth, maxDepth, seen);
        WalkAllListsInOrder(server, parent, raw[1..], depth, maxDepth, sub.seen);
        var rest := WalkAll(server, raw[1..], depth, maxDepth, sub.seen);
        if sub.nodes.Ok? && rest.nodes.Ok? {
          TakeReference(sub.nodes.value[0], rest.nodes.value, raw);
          assert sub.nodes.value == [sub.nodes.value[0]];
        }
      }
    }
  }

  lemma WalkNodeListsInOrder(server: Server, parent: OpcUaNodeId, n: OpcUaNode, depth: nat, maxDepth: Option<nat>,
                             seen: set<OpcUaNodeId>)
    requires ValidServer(server) && seen <= server.Keys && Reference(server, parent, n)
    requires n.nodeId in server && n.nodeId !in seen
    ensures var r := WalkNode(server, n, depth, maxDepth, seen);
            r.nodes.Ok? ==> r.nodes.value[0].(children := []) == n && ChildrenInOrder(server, r.nodes.value[0])
    decreases server.Keys - seen, 0
  {
    if n.nodeClass.Object? {
      WalkListsInOrder(server, n.nodeId, SaturatingSucc(depth), maxDepth, seen + {n.nodeId});
      var sub := Walk(server, n.nodeId, SaturatingSucc(depth), maxDepth, seen + {n.nodeId});
      if sub.nodes.Ok? {
        assert n.children + sub.nodes.value == sub.nodes.value;
      }
    }
  }

  /** With or without a limit, a browse lists nodes exactly as the server describes them, and at
      every level in the order of the references. */
  lemma BrowseKeepsOrder(server: Server, root: OpcUaNodeId, maxDepth: Option<nat>)
    requires ValidServer(server) && root in server && BrowseAll(server, root, maxDepth).nodes.Ok?
    ensures var nodes := BrowseAll(server, root, maxDepth).nodes.value;
            nodes == [] || (server[root].Ok? && ListedInOrder(server, nodes, server[root].value))
  {
    WalkListsInOrder(server, root, 0, maxDepth, {root});
  }

  // ---- Which error is reported ----

  lemma WalkReports(server: Server, root: OpcUaNodeId, id: OpcUaNodeId, depth: nat, maxDepth: Option<nat>, seen: set<OpcUaNodeId>)
    requires ValidServer(server) && id in server && seen <= server.Keys && Expandable(server, root, id)
    ensures var r := Walk(server, id, depth, maxDepth, seen);
            r.nodes.Err? ==> exists bad :: Expandable(server, root, bad) && bad in server && server[bad] == Err(r.nodes.error)
    decreases server.Keys - seen, if server[id].Ok? then |server[id].value| + 1 else 0
  {
    if !AtLimit(depth, maxDepth) && server[id].Ok? {
      forall n | n in server[id].value ensures Reference(server, id, n) {}
      WalkAllReports(server, root, id, server[id].value, depth, maxDepth, seen);
    }
  }

  lemma WalkAllReports(server: Server, root: OpcUaNodeId, parent: OpcUaNodeId, raw: seq<OpcUaNode>, depth: nat,
                       maxDepth: Option<nat>, seen: set<OpcUaNodeId>)
    requires ValidServer(server) && seen <= server.Keys && Expandable(server, root, parent)
    requires forall n :: n in raw ==> Reference(server, parent, n)
    ensures var r := WalkAll(server, raw, depth, maxDepth, seen);
            r.nodes.Err? ==> exists bad :: Expandable(server, root, bad) && bad in server && server[bad] == Err(r.nodes.error)
    decreases server.Keys - seen, |raw|
  {
    if raw != [] {
      var n := raw[0];
      assert Reference(server, parent, n);
      assert forall m :: m in raw ==> Reference(server, parent, m) && m.nodeId in server;
      if n.nodeId in seen {
        WalkAllReports(server, root, parent, raw[1..], depth, maxDepth, seen);
      } else {
        if n.nodeClass.Object? {
          ReferenceOfExpandable(server, root, parent, n);
          WalkReports(server, root, n.nodeId, SaturatingSucc(depth), maxDepth, seen + {n.nodeId});
        }
        WalkAllReports(server, root, parent, raw[1..], depth, maxDepth, WalkNode(server, n, depth, maxDepth, seen).seen);
      }
    }
  }

  /** A browse that fails reports what browsing the root or some reachable Object failed with. */
  lemma BrowseReportsItsError(server: Server, root: OpcUaNodeId, maxDepth: Option<nat>)
    requires ValidServer(server) && root in server && BrowseAll(server, root, maxDepth).nodes.Err?
    ensures exists bad :: Expandable(server, root, bad) && bad in server &&
                          server[bad] == Err(BrowseAll(server, root, maxDepth).nodes.error)
  {
    WalkReports(server, root, root, 0, maxDepth, {root});
  }
}
