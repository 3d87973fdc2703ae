/** What a depth limit does to a browse: when it cuts nothing off, and when everything within the
    limit is listed although nodes are never expanded twice. */
module BrowseLimits {
  import opened Wrappers
  import opened NodeId
  import opened Browse

  // ---- When a limit makes no difference ----

  /** A walk whose tree fits under the limit is the walk without a limit. */
  lemma WalkFits(server: Server, id: OpcUaNodeId, depth: nat, limit: nat, seen: set<OpcUaNodeId>)
    requires ValidServer(server) && id in server && seen <= server.Keys && limit <= USIZE_MAX
    requires var r := Walk(server, id, depth, None, seen); r.nodes.Ok? && depth + Height(r.nodes.value) <= limit
    ensures Walk(server, id, depth, Some(limit), seen) == Walk(server, id, depth, None, seen)
    decreases server.Keys - seen, if server[id].Ok? then |server[id].value| + 1 else 0
  {
    if depth >= limit {
      WalkIsGood(server, id, depth, None, seen);
      NothingListed(Walk(server, id, depth, None, seen).nodes.value, seen, Walk(server, id, depth, None, seen).seen);
    } else {
      forall n | n in server[id].value ensures Reference(server, id, n) {}
      WalkAllFits(server, id, server[id].value, depth, limit, seen);
    }
  }

  lemma NothingListed(nodes: seq<OpcUaNode>, before: set<OpcUaNodeId>, after: set<OpcUaNodeId>)
    requires Height(nodes) == 0 && ListsNew(nodes, before, after)
    ensures nodes == [] && after == before
  {
    assert IdSet(nodes) == {};
    assert after == before + IdSet(nodes);
  }

  lemma WalkAllFits(server: Server, parent: OpcUaNodeId, raw: seq<OpcUaNode>, depth: nat, limit: nat, seen: set<OpcUaNodeId>)
    requires ValidServer(server) && seen <= server.Keys && depth < limit <= USIZE_MAX
    requires forall n :: n in raw ==> Reference(server, parent, n)
    requires var r := WalkAll(server, raw, depth, None, seen); r.nodes.Ok? && depth + Height(r.nodes.value) <= limit
    ensures WalkAll(server, raw, depth, Some(limit), seen) == WalkAll(server, raw, depth, None, seen)
    decreases server.Keys - seen, |raw|
  {
    if raw != [] {
      var n := raw[0];
      assert forall m :: m in raw ==> Reference(server, parent, m) && m.nodeId in server;
      if n.nodeId in seen {
        WalkAllFits(server, parent, raw[1..], depth, limit, seen);
      } else {
        var sub := WalkNode(server, n, depth, None, seen);
        var rest := WalkAll(server, raw[1..], depth, None, sub.seen);
        HeightOfFirst(sub.nodes.value, rest.nodes.value);
        if n.nodeClass.Object? {
          var below := Walk(server, n.nodeId, SaturatingSucc(depth), None, seen + {n.nodeId});
          assert n.children + below.nodes.value == below.nodes.value;
          WalkFits(server, n.nodeId, SaturatingSucc(depth), limit, seen + {n.nodeId});
        }
        WalkAllFits(server, parent, raw[1..], depth, limit, sub.seen);
      }
    }
  }

  lemma HeightOfFirst(first: seq<OpcUaNode>, rest: seq<OpcUaNode>)
    requires |first| == 1
    ensures 1 + Height(first[0].children) <= Height(first + rest) && Height(rest) <= Height(first + rest)
  {
    assert (first + rest)[1..] == rest;
  }

  /** A limit loses nothing exactly when the tree of the unlimited browse is no higher. */
  lemma LimitIsNoLimitIff(server: Server, root: OpcUaNodeId, limit: nat)
    requires ValidServer(server) && root in server && limit <= USIZE_MAX
    requires BrowseAll(server, root, None).nodes.Ok?
    ensures BrowseAll(server, root, Some(limit)) == BrowseAll(server, root, None) <==>
            Height(BrowseAll(server, root, None).nodes.value) <= limit
  {
    if Height(BrowseAll(server, root, None).nodes.value) <= limit {
      WalkFits(server, root, 0, limit, {root});
    }
    if BrowseAll(server, root, Some(limit)) == BrowseAll(server, root, None) {
      BrowseIsSound(server, root, Some(limit));
    }
  }

  // ---- Levels of a tree ----

  /** `id` is listed at level `l`, when the roots of the tree are at `level`. */
  ghost predicate At(nodes: seq<OpcUaNode>, id: OpcUaNodeId, level: nat, l: nat)
    decreases nodes
  {
    nodes != [] && (
      || (nodes[0].nodeId == id && l == level)
      || At(nodes[0].children, id, level + 1, l)
      || At(nodes[1..], id, level, l))
  }

  lemma {:induction false} ListedAtSomeLevel(nodes: seq<OpcUaNode>, id: OpcUaNodeId, level: nat) returns (l: nat)
    requires id in Ids(nodes)
    ensures At(nodes, id, level, l) && level <= l < level + Height(nodes)
    decreases nodes
  {
    if nodes[0].nodeId == id {
      l := level;
    } else if id in Ids(nodes[0].children) {
      l := ListedAtSomeLevel(nodes[0].children, id, level + 1);
    } else {
      l := ListedAtSomeLevel(nodes[1..], id, level);
    }
  }

  lemma {:induction false} AtIsListed(nodes: seq<OpcUaNode>, id: OpcUaNodeId, level: nat, l: nat)
    requires At(nodes, id, level, l)
    ensures id in Ids(nodes)
    decreases nodes
  {
    if nodes[0].nodeId != id || l != level {
      if At(nodes[0].children, id, level + 1, l) {
        AtIsListed(nodes[0].children, id, level + 1, l);
      } else {
        AtIsListed(nodes[1..], id, level, l);
      }
    }
  }

  // ---- Objects above the limit are expanded ----

  /** Every reference of `id` leads into `s`. */
  ghost predicate ReferencesIn(server: Server, id: OpcUaNodeId, s: set<OpcUaNodeId>) {
    forall n :: Reference(server, id, n) ==> n.nodeId in s
  }

  /** The references of every Object of the tree that lies above level `limit` lead into `s`. */
  ghost predicate ClosedTo(server: Server, nodes: seq<OpcUaNode>, s: set<OpcUaNodeId>, level: nat, limit: nat)
    decreases nodes
  {
    nodes == [] || (
      && (nodes[0].nodeClass.Object? && level < limit ==> ReferencesIn(server, nodes[0].nodeId, s))
      && ClosedTo(server, nodes[0].children, s, level + 1, limit)
      && ClosedTo(server, nodes[1..], s, level, limit))
  }

  lemma {:induction false} ClosedToGrows(server: Server, nodes: seq<OpcUaNode>, s: set<OpcUaNodeId>, t: set<OpcUaNodeId>,
                                         level: nat, limit: nat)
    requires ClosedTo(server, nodes, s, level, limit) && s <= t
    ensures ClosedTo(server, nodes, t, level, limit)
    decreases nodes
  {
    if nodes != [] {
      ClosedToGrows(server, nodes[0].children, s, t, level + 1, limit);
      ClosedToGrows(server, nodes[1..], s, t, level, limit);
    }
  }

  lemma {:induction false} ClosedToAppend(server: Server, a: seq<OpcUaNode>, b: seq<OpcUaNode>, s: set<OpcUaNodeId>,
                                          level: nat, limit: nat)
    requires ClosedTo(server, a, s, level, limit) && ClosedTo(server, b, s, level, limit)
    ensures ClosedTo(server, a + b, s, level, limit)
  {
    if a == [] {
      assert a + b == b;
    } else {
      assert (a + b)[1..] == a[1..] + b;
      ClosedToAppend(server, a[1..], b, s, level, limit);
    }
  }

  lemma WalkIsClosedTo(server: Server, id: OpcUaNodeId, depth: nat, limit: nat, seen: set<OpcUaNodeId>)
    requires ValidServer(server) && id in server && seen <= server.Keys && depth <= limit <= USIZE_MAX
    requires Walk(server, id, depth, Some(limit), seen).nodes.Ok?
    ensures var r := Walk(server, id, depth, Some(limit), seen);
            && ClosedTo(server, r.nodes.value, r.seen, depth + 1, limit)
            && (depth < limit ==> ReferencesIn(server, id, r.seen))
    decreases server.Keys - seen, if server[id].Ok? then |server[id].value| + 1 else 0
  {
    if depth < limit {
      forall n | n in server[id].value ensures Reference(server, id, n) {}
      WalkAllIsClosedTo(server, id, server[id].value, depth, limit, seen);
    }
  }

  lemma WalkAllIsClosedTo(server: Server, parent: OpcUaNodeId, raw: seq<OpcUaNode>, depth: nat, limit: nat, seen: set<OpcUaNodeId>)
    requires ValidServer(server) && seen <= server.Keys && depth < limit <= USIZE_MAX
    requires forall n :: n in raw ==> Reference(server, parent, n)
    requires WalkAll(server, raw, depth, Some(limit), seen).nodes.Ok?
    ensures var r := WalkAll(server, raw, depth, Some(limit), seen);
            ClosedTo(server, r.nodes.value, r.seen, depth + 1, limit) && forall n :: n in raw ==> n.nodeId in r.seen
    decreases server.Keys - seen, |raw|
  {
    if raw != [] {
      assert Reference(server, parent, raw[0]);
      if raw[0].nodeId in seen {
        WalkAllIsClosedTo(server, parent, raw[1..], depth, limit, seen);
      } else {
        var sub := WalkNode(server, raw[0], depth, Some(limit), seen);
        WalkNodeIsClosedTo(server, parent, raw[0], depth, limit, seen);
        WalkAllIsClosedTo(server, parent, raw[1..], depth, limit, sub.seen);
        var rest := WalkAll(server, raw[1..], depth, Some(limit), sub.seen);
        ClosedToGrows(server, sub.nodes.value, sub.seen, rest.seen, depth + 1, limit);
        ClosedToAppend(server, sub.nodes.value, rest.nodes.value, rest.seen, depth + 1, limit);
      }
    }
  }

  lemma WalkNodeIsClosedTo(server: Server, parent: OpcUaNodeId, n: OpcUaNode, depth: nat, limit: nat, seen: set<OpcUaNodeId>)
    requires ValidServer(server) && seen <= server.Keys && depth < limit <= USIZE_MAX
    requires Reference(server, parent, n) && n.nodeId !in seen
    requires WalkNode(server, n, depth, Some(limit), seen).nodes.Ok?
    ensures var r := WalkNode(server, n, depth, Some(limit), seen); ClosedTo(server, r.nodes.value, r.seen, depth + 1, limit)
    decreases server.Keys - seen, 0
  {
    var r := WalkNode(server, n, depth, Some(limit), seen);
    var m := r.nodes.value[0];
    assert r.nodes.value[1..] == [];
    if n.nodeClass.Object? {
      WalkIsClosedTo(server, n.nodeId, depth + 1, limit, seen + {n.nodeId});
      assert m.children == Walk(server, n.nodeId, depth + 1, Some(limit), seen + {n.nodeId}).nodes.value;
    } else {
      assert m.children == [];
    }
  }

  lemma {:induction false} ClosedAtLevel(server: Server, parent: OpcUaNodeId, nodes: seq<OpcUaNode>, s: set<OpcUaNodeId>,
                                         level: nat, limit: nat, q: OpcUaNodeId, n: OpcUaNode, l: nat)
    requires OneClassPerNode(server) && TreeOfReferences(server, parent, nodes) && ClosedTo(server, nodes, s, level, limit)
    requires Reference(server, q, n) && n.nodeClass.Object? && At(nodes, n.nodeId, level, l) && l < limit
    ensures ReferencesIn(server, n.nodeId, s)
    decreases nodes
  {
    if n.nodeId == nodes[0].nodeId && l == level {
      assert Reference(server, parent, nodes[0].(children := []));
    } else if At(nodes[0].children, n.nodeId, level + 1, l) {
      ClosedAtLevel(server, nodes[0].nodeId, nodes[0].children, s, level + 1, limit, q, n, l);
    } else {
      ClosedAtLevel(server, parent, nodes[1..], s, level, limit, q, n, l);
    }
  }

  // ---- Chains to listed nodes ----

  function Last(path: seq<OpcUaNode>): OpcUaNode
    requires path != []
  {
    path[|path| - 1]
  }

  /** No node twice, and never back to the root. */
  ghost predicate Simple(root: OpcUaNodeId, path: seq<OpcUaNode>) {
    && (forall i :: 0 <= i < |path| ==> path[i].nodeId != root)
    && (forall i, j :: 0 <= i < j < |path| ==> path[i].nodeId != path[j].nodeId)
  }

  /** `prefix` is a simple chain to the Object `parent`, or nothing when that is the root. */
  ghost predicate LeadsTo(server: Server, root: OpcUaNodeId, prefix: seq<OpcUaNode>, parent: OpcUaNodeId) {
    && Simple(root, prefix)
    && if prefix == [] then parent == root
       else
         var last := prefix[|prefix| - 1];
         Chain(server, root, prefix) && last.nodeId == parent && last.nodeClass.Object?
  }

  lemma OneStepFurther(server: Server, root: OpcUaNodeId, prefix: seq<OpcUaNode>, parent: OpcUaNodeId, n: OpcUaNode)
    requires LeadsTo(server, root, prefix, parent) && Reference(server, parent, n)
    requires n.nodeId != root && forall m :: m in prefix ==> m.nodeId != n.nodeId
    ensures Chain(server, root, prefix + [n]) && Simple(root, prefix + [n])
  {
    var longer := prefix + [n];
    assert forall i :: 0 <= i < |prefix| ==> longer[i] == prefix[i] && prefix[i] in prefix;
    if prefix != [] {
      assert longer[|prefix| - 1] == prefix[|prefix| - 1];
    }
  }

  /** A tree that lists nothing of `prefix`, nothing twice, and not the root. */
  ghost predicate ListsOthers(root: OpcUaNodeId, prefix: seq<OpcUaNode>, nodes: seq<OpcUaNode>) {
    && NoDuplicates(Ids(nodes)) && root !in Ids(nodes)
    && forall m :: m in prefix ==> m.nodeId !in Ids(nodes)
  }

  lemma DistinctParts(a: seq<OpcUaNodeId>, b: seq<OpcUaNodeId>)
    requires NoDuplicates(a + b)
    ensures NoDuplicates(a) && NoDuplicates(b) && forall x :: x in a ==> x !in b
  {
    assert forall i :: 0 <= i < |a| ==> (a + b)[i] == a[i];
    assert forall i :: 0 <= i < |b| ==> (a + b)[|a| + i] == b[i];
  }

  lemma IdsOfFirst(nodes: seq<OpcUaNode>)
    requires nodes != [] && NoDuplicates(Ids(nodes))
    ensures NoDuplicates(Ids(nodes[0].children)) && NoDuplicates(Ids(nodes[1..]))
    ensures nodes[0].nodeId in Ids(nodes) && nodes[0].nodeId !in Ids(nodes[0].children)
    ensures forall x :: x in Ids(nodes[0].children) || x in Ids(nodes[1..]) ==> x in Ids(nodes)
  {
    var first, below, rest := [nodes[0].nodeId], Ids(nodes[0].children), Ids(nodes[1..]);
    assert Ids(nodes) == first + below + rest;
    DistinctParts(first + below, rest);
    DistinctParts(first, below);
    assert nodes[0].nodeId in first;
  }

  lemma OthersBelow(root: OpcUaNodeId, prefix: seq<OpcUaNode>, nodes: seq<OpcUaNode>)
    requires nodes != [] && ListsOthers(root, prefix, nodes)
    ensures ListsOthers(root, prefix, nodes[1..])
    ensures ListsOthers(root, prefix + [nodes[0].(children := [])], nodes[0].children)
    ensures nodes[0].nodeId != root && forall m :: m in prefix ==> m.nodeId != nodes[0].nodeId
  {
    IdsOfFirst(nodes);
  }

  /** Whatever is listed at level `l` has a simple chain of `l` references. */
  lemma {:induction false} SimpleChainTo(server: Server, root: OpcUaNodeId, prefix: seq<OpcUaNode>, parent: OpcUaNodeId,
                                         nodes: seq<OpcUaNode>, id: OpcUaNodeId, l: nat)
    returns (path: seq<OpcUaNode>)
    requires LeadsTo(server, root, prefix, parent) && TreeOfReferences(server, parent, nodes)
    requires ListsOthers(root, prefix, nodes) && At(nodes, id, |prefix| + 1, l)
    ensures Chain(server, root, path) && Simple(root, path) && |path| == l && Last(path).nodeId == id
    decreases nodes
  {
    var bare := nodes[0].(children := []);
    OthersBelow(root, prefix, nodes);
    OneStepFurther(server, root, prefix, parent, bare);
    if nodes[0].nodeId == id && l == |prefix| + 1 {
      path := prefix + [bare];
    } else if At(nodes[0].children, id, |prefix| + 2, l) {
      assert nodes[0].children != [];
      path := SimpleChainTo(server, root, prefix + [bare], nodes[0].nodeId, nodes[0].children, id, l);
    } else {
      path := SimpleChainTo(server, root, prefix, parent, nodes[1..], id, l);
    }
  }

  // ---- Completeness within a limit ----

  /** Some chain of at most `d` references leads to `id`. */
  ghost predicate Within(server: Server, root: OpcUaNodeId, id: OpcUaNodeId, d: nat) {
    exists path: seq<OpcUaNode> :: Chain(server, root, path) && |path| <= d && Last(path).nodeId == id
  }

  ghost predicate ListsAllWithin(server: Server, root: OpcUaNodeId, nodes: seq<OpcUaNode>, d: nat) {
    forall id :: id != root && Within(server, root, id, d) ==> id in Ids(nodes)
  }

  /** An Object listed at the limit is not expanded; if a shorter chain leads to it too, its
      references are within the limit all the same, and have to be listed by way of others. */
  ghost predicate LateObjectsCovered(server: Server, root: OpcUaNodeId, nodes: seq<OpcUaNode>, limit: nat) {
    forall path: seq<OpcUaNode> | Chain(server, root, path) && |path| < limit && Last(path).nodeClass.Object?
                                  && At(nodes, Last(path).nodeId, 1, limit) ::
      ReferencesIn(server, Last(path).nodeId, IdSet(nodes) + {root})
  }

  lemma SeenByBrowse(server: Server, root: OpcUaNodeId, limit: nat)
    requires ValidServer(server) && root in server && BrowseAll(server, root, Some(limit)).nodes.Ok?
    ensures BrowseAll(server, root, Some(limit)).seen == IdSet(BrowseAll(server, root, Some(limit)).nodes.value) + {root}
    ensures ListsOthers(root, [], BrowseAll(server, root, Some(limit)).nodes.value)
  {
    WalkIsGood(server, root, 0, Some(limit), {root});
  }

  lemma ClosedByBrowse(server: Server, root: OpcUaNodeId, limit: nat)
    requires ValidServer(server) && root in server && limit <= USIZE_MAX && BrowseAll(server, root, Some(limit)).nodes.Ok?
    ensures var r := BrowseAll(server, root, Some(limit));
            ClosedTo(server, r.nodes.value, r.seen, 1, limit) && (0 < limit ==> ReferencesIn(server, root, r.seen))
  {
    WalkIsClosedTo(server, root, 0, limit, {root});
  }

  /** What a successful limited browse guarantees. */
  lemma LimitedBrowse(server: Server, root: OpcUaNodeId, limit: nat)
    requires ValidServer(server) && root in server && limit <= USIZE_MAX
    requires BrowseAll(server, root, Some(limit)).nodes.Ok?
    ensures var nodes, seen := BrowseAll(server, root, Some(limit)).nodes.value, BrowseAll(server, root, Some(limit)).seen;
            && seen == IdSet(nodes) + {root} && ListsOthers(root, [], nodes)
            && TreeOfReferences(server, root, nodes) && Height(nodes) <= limit
            && ClosedTo(server, nodes, seen, 1, limit) && (0 < limit ==> ReferencesIn(server, root, seen))
  {
    SeenByBrowse(server, root, limit);
    BrowseIsSound(server, root, Some(limit));
    ClosedByBrowse(server, root, limit);
  }

  lemma ChainPrefix(server: Server, root: OpcUaNodeId, path: seq<OpcUaNode>, k: nat)
    requires Chain(server, root, path) && 0 < k <= |path|
    ensures Chain(server, root, path[..k]) && Last(path[..k]) == path[k - 1]
  {}

  lemma LastReference(server: Server, root: OpcUaNodeId, path: seq<OpcUaNode>) returns (from: OpcUaNodeId)
    requires Chain(server, root, path)
    ensures Reference(server, from, Last(path))
  {
    if |path| == 1 {
      from := root;
    } else {
      from := path[|path| - 2].nodeId;
      assert Reference(server, from, path[|path| - 2 + 1]);
    }
  }

  lemma LateObjectIsCovered(server: Server, root: OpcUaNodeId, nodes: seq<OpcUaNode>, limit: nat, front: seq<OpcUaNode>)
    requires LateObjectsCovered(server, root, nodes, limit) && Chain(server, root, front) && |front| < limit
    requires Last(front).nodeClass.Object? && At(nodes, Last(front).nodeId, 1, limit)
    ensures ReferencesIn(server, Last(front).nodeId, IdSet(nodes) + {root})
  {}

  lemma ListedObjectIsCovered(server: Server, root: OpcUaNodeId, nodes: seq<OpcUaNode>, limit: nat, front: seq<OpcUaNode>)
    requires OneClassPerNode(server) && Chain(server, root, front) && |front| < limit && Last(front).nodeClass.Object?
    requires Last(front).nodeId in Ids(nodes) && TreeOfReferences(server, root, nodes) && Height(nodes) <= limit
    requires ClosedTo(server, nodes, IdSet(nodes) + {root}, 1, limit) && LateObjectsCovered(server, root, nodes, limit)
    ensures ReferencesIn(server, Last(front).nodeId, IdSet(nodes) + {root})
  {
    var l := ListedAtSomeLevel(nodes, Last(front).nodeId, 1);
    if l < limit {
      var from := LastReference(server, root, front);
      ClosedAtLevel(server, root, nodes, IdSet(nodes) + {root}, 1, limit, from, Last(front), l);
    } else {
      LateObjectIsCovered(server, root, nodes, limit, front);
    }
  }

  /** Every chain below the limit that ends in an Object of `s` can be followed inside `s`. */
  ghost predicate CanFollow(server: Server, root: OpcUaNodeId, s: set<OpcUaNodeId>, limit: nat) {
    forall path: seq<OpcUaNode>
      | Chain(server, root, path) && |path| < limit && Last(path).nodeClass.Object? && Last(path).nodeId in s ::
      ReferencesIn(server, Last(path).nodeId, s)
  }

  lemma {:induction false} ChainStaysInside(server: Server, root: OpcUaNodeId, s: set<OpcUaNodeId>, limit: nat,
                                            path: seq<OpcUaNode>, k: nat)
    requires Chain(server, root, path) && k < |path| <= limit
    requires ReferencesIn(server, root, s) && CanFollow(server, root, s, limit)
    ensures path[k].nodeId in s
  {
    if k == 0 {
      assert Reference(server, root, path[0]);
    } else {
      ChainStaysInside(server, root, s, limit, path, k - 1);
      assert path[k - 1].nodeClass.Object? && Reference(server, path[k - 1].nodeId, path[k - 1 + 1]);
      ChainPrefix(server, root, path, k);
      assert ReferencesIn(server, Last(path[..k]).nodeId, s);
    }
  }

  lemma CoveredCanBeFollowed(server: Server, root: OpcUaNodeId, nodes: seq<OpcUaNode>, limit: nat)
    requires OneClassPerNode(server) && TreeOfReferences(server, root, nodes) && Height(nodes) <= limit
    requires ClosedTo(server, nodes, IdSet(nodes) + {root}, 1, limit) && LateObjectsCovered(server, root, nodes, limit)
    requires 0 < limit ==> ReferencesIn(server, root, IdSet(nodes) + {root})
    ensures CanFollow(server, root, IdSet(nodes) + {root}, limit)
  {
    forall path: seq<OpcUaNode>
      | Chain(server, root, path) && |path| < limit && Last(path).nodeClass.Object? && Last(path).nodeId in IdSet(nodes) + {root}
      ensures ReferencesIn(server, Last(path).nodeId, IdSet(nodes) + {root})
    {
      if Last(path).nodeId != root {
        ListedObjectIsCovered(server, root, nodes, limit, path);
      }
    }
  }

  lemma CoveredMeansAll(server: Server, root: OpcUaNodeId, limit: nat)
    requires ValidServer(server) && OneClassPerNode(server) && root in server && limit <= USIZE_MAX
    requires BrowseAll(server, root, Some(limit)).nodes.Ok?
    requires LateObjectsCovered(server, root, BrowseAll(server, root, Some(limit)).nodes.value, limit)
    ensures ListsAllWithin(server, root, BrowseAll(server, root, Some(limit)).nodes.value, limit)
  {
    LimitedBrowse(server, root, limit);
    var nodes := BrowseAll(server, root, Some(limit)).nodes.value;
    CoveredCanBeFollowed(server, root, nodes, limit);
    forall id | id != root && Within(server, root, id, limit) ensures id in Ids(nodes) {
      var path: seq<OpcUaNode> :| Chain(server, root, path) && |path| <= limit && Last(path).nodeId == id;
      ChainStaysInside(server, root, IdSet(nodes) + {root}, limit, path, |path| - 1);
    }
  }

  lemma LongerChain(server: Server, root: OpcUaNodeId, path: seq<OpcUaNode>, n: OpcUaNode)
    requires Chain(server, root, path) && Last(path).nodeClass.Object? && Reference(server, Last(path).nodeId, n)
    ensures Within(server, root, n.nodeId, |path| + 1)
  {
    var longer := path + [n];
    assert longer[|path| - 1] == Last(path);
    assert Chain(server, root, longer) && Last(longer) == n;
  }

  lemma AllMeansCovered(server: Server, root: OpcUaNodeId, nodes: seq<OpcUaNode>, limit: nat)
    requires ListsAllWithin(server, root, nodes, limit)
    ensures LateObjectsCovered(server, root, nodes, limit)
  {
    forall path: seq<OpcUaNode> | Chain(server, root, path) && |path| < limit && Last(path).nodeClass.Object?
      ensures ReferencesIn(server, Last(path).nodeId, IdSet(nodes) + {root})
    {
      forall n: OpcUaNode | Reference(server, Last(path).nodeId, n) ensures n.nodeId in IdSet(nodes) + {root} {
        LongerChain(server, root, path, n);
        var longer: seq<OpcUaNode> :| Chain(server, root, longer) && |longer| <= |path| + 1 && Last(longer).nodeId == n.nodeId;
        assert Within(server, root, n.nodeId, limit);
      }
    }
  }

  /** A browse with a limit lists every node within the limit exactly when the references of the
      Objects that it lists at the limit, but that have a shorter chain, are all listed. */
  lemma LimitedBrowseIsCompleteIff(server: Server, root: OpcUaNodeId, limit: nat)
    requires ValidServer(server) && OneClassPerNode(server) && root in server && limit <= USIZE_MAX
    requires BrowseAll(server, root, Some(limit)).nodes.Ok?
    ensures var nodes := BrowseAll(server, root, Some(limit)).nodes.value;
            ListsAllWithin(server, root, nodes, limit) <==> LateObjectsCovered(server, root, nodes, limit)
  {
    var nodes := BrowseAll(server, root, Some(limit)).nodes.value;
    if LateObjectsCovered(server, root, nodes, limit) {
      CoveredMeansAll(server, root, limit);
    }
    if ListsAllWithin(server, root, nodes, limit) {
      AllMeansCovered(server, root, nodes, limit);
    }
  }

  /** No Object has both a simple chain of exactly `limit` references and a shorter chain. */
  ghost predicate NoLateObject(server: Server, root: OpcUaNodeId, limit: nat) {
    forall p: seq<OpcUaNode>, q: seq<OpcUaNode>
      | Chain(server, root, p) && Simple(root, p) && |p| == limit && Last(p).nodeClass.Object?
        && Chain(server, root, q) && Last(q).nodeId == Last(p).nodeId ::
      |q| >= limit
  }

  lemma EndsInObject(server: Server, root: OpcUaNodeId, p: seq<OpcUaNode>, q: seq<OpcUaNode>)
    requires OneClassPerNode(server) && Chain(server, root, p) && Chain(server, root, q)
    requires Last(p).nodeId == Last(q).nodeId && Last(q).nodeClass.Object?
    ensures Last(p).nodeClass.Object?
  {
    assert Reference(server, if |p| == 1 then root else p[|p| - 2].nodeId, p[|p| - 2 + 1]);
    assert Reference(server, if |q| == 1 then root else q[|q| - 2].nodeId, q[|q| - 2 + 1]);
  }

  lemma NoShorterChain(server: Server, root: OpcUaNodeId, nodes: seq<OpcUaNode>, limit: nat, q: seq<OpcUaNode>)
    requires OneClassPerNode(server) && NoLateObject(server, root, limit)
    requires TreeOfReferences(server, root, nodes) && ListsOthers(root, [], nodes)
    requires Chain(server, root, q) && Last(q).nodeClass.Object? && At(nodes, Last(q).nodeId, 1, limit)
    ensures |q| >= limit
  {
    var p := SimpleChainTo(server, root, [], root, nodes, Last(q).nodeId, limit);
    EndsInObject(server, root, p, q);
  }

  lemma NoLateObjectMeansCovered(server: Server, root: OpcUaNodeId, nodes: seq<OpcUaNode>, limit: nat)
    requires OneClassPerNode(server) && NoLateObject(server, root, limit)
    requires TreeOfReferences(server, root, nodes) && ListsOthers(root, [], nodes)
    ensures LateObjectsCovered(server, root, nodes, limit)
  {
    forall q: seq<OpcUaNode> | Chain(server, root, q) && Last(q).nodeClass.Object? && At(nodes, Last(q).nodeId, 1, limit)
      ensures |q| >= limit
    {
      NoShorterChain(server, root, nodes, limit, q);
    }
  }

  lemma ListedIsWithin(server: Server, root: OpcUaNodeId, nodes: seq<OpcUaNode>, limit: nat, id: OpcUaNodeId)
    requires TreeOfReferences(server, root, nodes) && ListsOthers(root, [], nodes) && Height(nodes) <= limit
    requires id in Ids(nodes)
    ensures id != root && Within(server, root, id, limit)
  {
    var l := ListedAtSomeLevel(nodes, id, 1);
    var path := SimpleChainTo(server, root, [], root, nodes, id, l);
    assert Chain(server, root, path) && |path| <= limit && Last(path).nodeId == id;
  }

  /** On such a graph a browse with a limit lists exactly the nodes within the limit. */
  lemma LimitedBrowseIsComplete(server: Server, root: OpcUaNodeId, limit: nat, id: OpcUaNodeId)
    requires ValidServer(server) && OneClassPerNode(server) && root in server && limit <= USIZE_MAX
    requires BrowseAll(server, root, Some(limit)).nodes.Ok? && NoLateObject(server, root, limit)
    ensures id in Ids(BrowseAll(server, root, Some(limit)).nodes.value) <==> id != root && Within(server, root, id, limit)
  {
    var nodes := BrowseAll(server, root, Some(limit)).nodes.value;
    LimitedBrowse(server, root, limit);
    NoLateObjectMeansCovered(server, root, nodes, limit);
    CoveredMeansAll(server, root, limit);
    if id in Ids(nodes) {
      ListedIsWithin(server, root, nodes, limit, id);
    }
  }

  /** All chains to an Object have the same length. */
  ghost predicate LevelledObjects(server: Server, root: OpcUaNodeId) {
    forall p: seq<OpcUaNode>, q: seq<OpcUaNode>
      | Chain(server, root, p) && Chain(server, root, q) && Last(p).nodeClass.Object? && Last(p).nodeId == Last(q).nodeId ::
      |p| == |q|
  }

  /** Where every Object has one distance from the root, every limit is safe. */
  lemma LevelledGraphsAreComplete(server: Server, root: OpcUaNodeId, limit: nat, id: OpcUaNodeId)
    requires ValidServer(server) && OneClassPerNode(server) && root in server && limit <= USIZE_MAX
    requires BrowseAll(server, root, Some(limit)).nodes.Ok? && LevelledObjects(server, root)
    ensures id in Ids(BrowseAll(server, root, Some(limit)).nodes.value) <==> id != root && Within(server, root, id, limit)
  {
    LimitedBrowseIsComplete(server, root, limit, id);
  }
}
