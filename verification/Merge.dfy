/** Additive semantic merge of two graphs by node name, and the by-name diff. */
module Merge {
  import opened Base
  import opened Graph
  import opened Payload

  // ---------------------------------------------------------------- vocabulary

  function Names(nodes: seq<GraphNode>): set<string> {
    if nodes == [] then {} else Names(nodes[..|nodes| - 1]) + {nodes[|nodes| - 1].name}
  }

  lemma {:induction false} NamesMembers(nodes: seq<GraphNode>)
    ensures forall x :: x in Names(nodes) <==> exists i :: 0 <= i < |nodes| && nodes[i].name == x
    decreases |nodes|
  {
    if nodes != [] {
      var init := nodes[..|nodes| - 1];
      NamesMembers(init);
      assert forall i :: 0 <= i < |init| ==> init[i] == nodes[i];
    }
  }

  function SaturatingSucc(x: NodeRef): NodeRef {
    if x == U32_MAX then x else x + 1
  }

  /** The largest ref in use, 0 for an empty list. */
  function MaxRef(nodes: seq<GraphNode>): (r: NodeRef)
    ensures forall i :: 0 <= i < |nodes| ==> nodes[i].id <= r
    ensures nodes != [] ==> r in Ids(nodes)
    ensures nodes == [] ==> r == 0
  {
    if nodes == [] then 0
    else
      var last := |nodes| - 1;
      var m := MaxRef(nodes[..last]);
      assert forall i :: 0 <= i < last ==> nodes[..last][i] == nodes[i];
      if |nodes| == 1 || nodes[last].id > m then assert nodes[last].id in Ids(nodes); nodes[last].id
      else
        assert m in Ids(nodes) by { MaxStays(nodes, m); }
        m
  }

  lemma {:induction false} MaxStays(nodes: seq<GraphNode>, m: NodeRef)
    requires |nodes| > 1 && m in Ids(nodes[..|nodes| - 1])
    ensures m in Ids(nodes)
  {
    var i :| 0 <= i < |nodes| - 1 && nodes[..|nodes| - 1][i].id == m;
    assert nodes[i].id == m;
  }

  /** Name to ref; of equal names the last one wins. */
  function RefsByName(nodes: seq<GraphNode>): map<string, NodeRef> {
    if nodes == [] then map[]
    else RefsByName(nodes[..|nodes| - 1])[nodes[|nodes| - 1].name := nodes[|nodes| - 1].id]
  }

  /** Ref to name; of equal refs the last one wins. */
  function NamesByRef(nodes: seq<GraphNode>): map<NodeRef, string> {
    if nodes == [] then map[]
    else NamesByRef(nodes[..|nodes| - 1])[nodes[|nodes| - 1].id := nodes[|nodes| - 1].name]
  }

  // ---------------------------------------------------------------- specification of the merge

  datatype NodeMerge = NodeMerge(nodes: seq<GraphNode>, next: NodeRef, conflicts: seq<string>)

  /** Take one source node: a known name is kept as it is, and reported if the two differ;
      a new name is appended under the next ref. */
  function TakeNode(st: NodeMerge, node: GraphNode): NodeMerge {
    match FindName(st.nodes, node.name)
    case Some(i) => if st.nodes[i] == node then st else st.(conflicts := st.conflicts + [node.name])
    case None => st.(nodes := st.nodes + [node.(id := st.next)], next := SaturatingSucc(st.next))
  }

  function TakeNodes(st: NodeMerge, nodes: seq<GraphNode>): NodeMerge {
    if nodes == [] then st else TakeNode(TakeNodes(st, nodes[..|nodes| - 1]), nodes[|nodes| - 1])
  }

  function StartMerge(target: seq<GraphNode>): NodeMerge {
    NodeMerge(target, SaturatingSucc(MaxRef(target)), [])
  }

  /** A source edge carried over to the merged refs, by the names of its ends. */
  function MapEdge(e: GraphEdge, byRef: map<NodeRef, string>, refs: map<string, NodeRef>): Option<GraphEdge> {
    if e.source in byRef && e.target in byRef && byRef[e.source] in refs && byRef[e.target] in refs
    then Some(e.(source := refs[byRef[e.source]], target := refs[byRef[e.target]]))
    else None
  }

  function TakeEdge(edges: seq<GraphEdge>, m: Option<GraphEdge>): seq<GraphEdge> {
    if m.Some? && m.value !in edges then edges + [m.value] else edges
  }

  function TakeEdges(edges: seq<GraphEdge>, source: seq<GraphEdge>, byRef: map<NodeRef, string>,
                     refs: map<string, NodeRef>): seq<GraphEdge> {
    if source == [] then edges
    else TakeEdge(TakeEdges(edges, source[..|source| - 1], byRef, refs), MapEdge(source[|source| - 1], byRef, refs))
  }

  function MergedNodes(t: GraphValue, s: GraphValue): seq<GraphNode> {
    TakeNodes(StartMerge(t.nodes), s.nodes).nodes
  }

  /** The merged graph. */
  function Merged(t: GraphValue, s: GraphValue): GraphValue {
    var nodes := MergedNodes(t, s);
    GraphValue(nodes, TakeEdges(t.edges, s.edges, NamesByRef(s.nodes), RefsByName(nodes)))
  }

  /** The names reported as changed in both graphs. */
  function Conflicts(t: GraphValue, s: GraphValue): seq<string> {
    TakeNodes(StartMerge(t.nodes), s.nodes).conflicts
  }

  // ---------------------------------------------------------------- the merge

  lemma {:induction false} TakeNodesStep(st: NodeMerge, nodes: seq<GraphNode>, i: nat)
    requires i < |nodes|
    ensures TakeNodes(st, nodes[..i + 1]) == TakeNode(TakeNodes(st, nodes[..i]), nodes[i])
  {
    assert nodes[..i + 1][..i] == nodes[..i];
  }

  lemma {:induction false} TakeEdgesStep(edges: seq<GraphEdge>, source: seq<GraphEdge>, byRef: map<NodeRef, string>,
                                         refs: map<string, NodeRef>, i: nat)
    requires i < |source|
    ensures TakeEdges(edges, source[..i + 1], byRef, refs)
            == TakeEdge(TakeEdges(edges, source[..i], byRef, refs), MapEdge(source[i], byRef, refs))
  {
    assert source[..i + 1][..i] == source[..i];
  }

  method MaxNodeRef(nodes: seq<GraphNode>) returns (r: NodeRef)
    ensures r == MaxRef(nodes)
  {
    r := 0;
    for i := 0 to |nodes|
      invariant r == MaxRef(nodes[..i])
    {
      assert nodes[..i + 1][..i] == nodes[..i];
      if nodes[i].id > r {
        r := nodes[i].id;
      }
    }
    assert nodes[..|nodes|] == nodes;
  }

  method BuildRefsByName(nodes: seq<GraphNode>) returns (r: map<string, NodeRef>)
    ensures r == RefsByName(nodes)
  {
    r := map[];
    for i := 0 to |nodes|
      invariant r == RefsByName(nodes[..i])
    {
      assert nodes[..i + 1][..i] == nodes[..i];
      r := r[nodes[i].name := nodes[i].id];
    }
    assert nodes[..|nodes|] == nodes;
  }

  method BuildNamesByRef(nodes: seq<GraphNode>) returns (r: map<NodeRef, string>)
    ensures r == NamesByRef(nodes)
  {
    r := map[];
    for i := 0 to |nodes|
      invariant r == NamesByRef(nodes[..i])
    {
      assert nodes[..i + 1][..i] == nodes[..i];
      r := r[nodes[i].id := nodes[i].name];
    }
    assert nodes[..|nodes|] == nodes;
  }

  /** Take the source nodes one by one, keeping the name index current. */
  method MergeNodes(target: seq<GraphNode>, source: seq<GraphNode>)
    returns (nodes: seq<GraphNode>, refMap: map<string, NodeRef>, conflicts: seq<string>)
    ensures nodes == TakeNodes(StartMerge(target), source).nodes
    ensures conflicts == TakeNodes(StartMerge(target), source).conflicts
    ensures refMap == RefsByName(nodes)
  {
    var next := MaxNodeRef(target);
    next := SaturatingSucc(next);
    nodes, conflicts := target, [];
    refMap := BuildRefsByName(target);
    for i := 0 to |source|
      invariant NodeMerge(nodes, next, conflicts) == TakeNodes(StartMerge(target), source[..i])
      invariant refMap == RefsByName(nodes)
    {
      TakeNodesStep(StartMerge(target), source, i);
      var node := source[i];
      var existing := FindName(nodes, node.name);
      if existing.Some? {
        if nodes[existing.value] != node {
          conflicts := conflicts + [node.name];
        }
      } else {
        node := node.(id := next);
        next := SaturatingSucc(next);
        refMap := refMap[node.name := node.id];
        assert (nodes + [node])[..|nodes|] == nodes;
        nodes := nodes + [node];
      }
    }
    assert source[..|source|] == source;
  }

  /** Carry the source edges over, skipping those already present. */
  method MergeEdges(target: seq<GraphEdge>, source: seq<GraphEdge>, byRef: map<NodeRef, string>,
                    refs: map<string, NodeRef>)
    returns (edges: seq<GraphEdge>)
    ensures edges == TakeEdges(target, source, byRef, refs)
  {
    edges := target;
    var existing := set e | e in edges;
    for i := 0 to |source|
      invariant edges == TakeEdges(target, source[..i], byRef, refs)
      invariant existing == set e | e in edges
    {
      TakeEdgesStep(target, source, byRef, refs, i);
      var edge := source[i];
      if edge.source in byRef && edge.target in byRef && byRef[edge.source] in refs && byRef[edge.target] in refs {
        var mapped := edge.(source := refs[byRef[edge.source]], target := refs[byRef[edge.target]]);
        if mapped !in existing {
          existing := existing + {mapped};
          edges := edges + [mapped];
        }
      }
    }
    assert source[..|source|] == source;
  }

  /** Merge `source` into `target`: the target is kept, new names are renumbered, and edges
      follow their names. */
  method MergeGraphsAdditive(target: GraphValue, source: GraphValue)
    returns (merged: GraphValue, conflicts: seq<string>)
    ensures merged == Merged(target, source)
    ensures conflicts == Conflicts(target, source)
  {
    var nodes, refMap, reported := MergeNodes(target.nodes, source.nodes);
    var byRef := BuildNamesByRef(source.nodes);
    var edges := MergeEdges(target.edges, source.edges, byRef, refMap);
    merged, conflicts := GraphValue(nodes, edges), reported;
  }

  // ---------------------------------------------------------------- what the node pass does

  function SatAdd(x: NodeRef, j: nat): NodeRef {
    if x + j > U32_MAX then U32_MAX else x + j
  }

  lemma {:induction false} NamesAppend(nodes: seq<GraphNode>, n: GraphNode)
    ensures Names(nodes + [n]) == Names(nodes) + {n.name}
  {
    assert (nodes + [n])[..|nodes|] == nodes;
  }

  lemma {:induction false} FindNameNames(nodes: seq<GraphNode>, x: string)
    ensures FindName(nodes, x).Some? <==> x in Names(nodes)
  {
    NamesMembers(nodes);
  }

  /** The effect of one source node, in terms of names only. */
  lemma {:induction false} TakeNodeEffect(r: NodeMerge, n: GraphNode)
    ensures var r' := TakeNode(r, n);
            if n.name in Names(r.nodes) then r'.nodes == r.nodes && r'.next == r.next
            else r'.nodes == r.nodes + [n.(id := r.next)] && r'.next == SaturatingSucc(r.next)
    ensures Names(TakeNode(r, n).nodes) == Names(r.nodes) + {n.name}
  {
    FindNameNames(r.nodes, n.name);
    NamesAppend(r.nodes, n.(id := r.next));
    if n.name in Names(r.nodes) {
      assert Names(r.nodes) + {n.name} == Names(r.nodes);
    }
  }

  /** Names are united, and one node is added per source name the start does not have. */
  lemma {:induction false} TakeNodesNames(st: NodeMerge, nodes: seq<GraphNode>)
    ensures Names(TakeNodes(st, nodes).nodes) == Names(st.nodes) + Names(nodes)
    ensures |TakeNodes(st, nodes).nodes| == |st.nodes| + |Names(nodes) - Names(st.nodes)|
    decreases |nodes|
  {
    if nodes != [] {
      var init, n := nodes[..|nodes| - 1], nodes[|nodes| - 1];
      TakeNodesNames(st, init);
      TakeNodeEffect(TakeNodes(st, init), n);
      OneMore(Names(init), Names(st.nodes), n.name);
    }
  }

  /** The start is a prefix; refs count up from the start's next ref and stick at the maximum. */
  ghost predicate Numbered(st: NodeMerge, r: NodeMerge) {
    && st.nodes <= r.nodes
    && r.next == SatAdd(st.next, |r.nodes| - |st.nodes|)
    && forall j :: |st.nodes| <= j < |r.nodes| ==>
         r.nodes[j].id == SatAdd(st.next, j - |st.nodes|) && r.nodes[j].name !in Names(st.nodes)
  }

  lemma {:induction false} TakeNodesNumbered(st: NodeMerge, nodes: seq<GraphNode>)
    ensures Numbered(st, TakeNodes(st, nodes))
    decreases |nodes|
  {
    if nodes != [] {
      var init, n := nodes[..|nodes| - 1], nodes[|nodes| - 1];
      TakeNodesNumbered(st, init);
      TakeNodesNames(st, init);
      NumberedStep(st, TakeNodes(st, init), n);
    }
  }

  lemma {:induction false} NumberedStep(st: NodeMerge, r: NodeMerge, n: GraphNode)
    requires Numbered(st, r) && Names(st.nodes) <= Names(r.nodes)
    ensures Numbered(st, TakeNode(r, n))
  {
    TakeNodeEffect(r, n);
  }

  // ---------------------------------------------------------------- indexes

  lemma {:induction false} RefsByNameSound(nodes: seq<GraphNode>)
    ensures RefsByName(nodes).Keys == Names(nodes)
    ensures forall x :: x in RefsByName(nodes) ==>
              exists i :: 0 <= i < |nodes| && nodes[i].name == x && nodes[i].id == RefsByName(nodes)[x]
    decreases |nodes|
  {
    if nodes != [] {
      var last := |nodes| - 1;
      var init := nodes[..last];
      RefsByNameSound(init);
      assert forall i :: 0 <= i < last ==> init[i] == nodes[i];
      forall x | x in RefsByName(nodes)
        ensures exists i :: 0 <= i < |nodes| && nodes[i].name == x && nodes[i].id == RefsByName(nodes)[x]
      {
        if x != nodes[last].name {
          var i :| 0 <= i < |init| && init[i].name == x && init[i].id == RefsByName(init)[x];
          assert nodes[i].name == x;
        }
      }
    }
  }

  lemma {:induction false} NamesByRefKeys(nodes: seq<GraphNode>)
    ensures NamesByRef(nodes).Keys == Ids(nodes)
    decreases |nodes|
  {
    if nodes != [] {
      var init, n := nodes[..|nodes| - 1], nodes[|nodes| - 1];
      NamesByRefKeys(init);
      assert nodes == init + [n];
      CreateIds(init, n);
    }
  }

  lemma {:induction false} NamesByRefAt(nodes: seq<GraphNode>, i: nat)
    requires UniqueIds(nodes) && i < |nodes|
    ensures nodes[i].id in NamesByRef(nodes) && NamesByRef(nodes)[nodes[i].id] == nodes[i].name
    decreases |nodes|
  {
    var init := nodes[..|nodes| - 1];
    if i < |init| {
      NamesByRefAt(init, i);
      assert init[i] == nodes[i];
    }
  }

  // ---------------------------------------------------------------- validity of the merge

  /** The number of nodes the merge adds. */
  function Added(t: GraphValue, s: GraphValue): nat {
    |Names(s.nodes) - Names(t.nodes)|
  }

  /** The target's nodes and edges come first, unchanged; names are united. */
  lemma {:induction false} MergeKeepsTarget(t: GraphValue, s: GraphValue)
    ensures t.nodes <= Merged(t, s).nodes && t.edges <= Merged(t, s).edges
    ensures Names(Merged(t, s).nodes) == Names(t.nodes) + Names(s.nodes)
    ensures |Merged(t, s).nodes| == |t.nodes| + Added(t, s)
  {
    TakeNodesNames(StartMerge(t.nodes), s.nodes);
    TakeNodesNumbered(StartMerge(t.nodes), s.nodes);
    TakeEdgesPrefix(t.edges, s.edges, NamesByRef(s.nodes), RefsByName(MergedNodes(t, s)));
  }

  lemma {:induction false} TakeEdgesPrefix(edges: seq<GraphEdge>, source: seq<GraphEdge>, byRef: map<NodeRef, string>,
                                           refs: map<string, NodeRef>)
    ensures edges <= TakeEdges(edges, source, byRef, refs)
    decreases |source|
  {
    if source != [] {
      TakeEdgesPrefix(edges, source[..|source| - 1], byRef, refs);
    }
  }

  lemma {:induction false} MergedSize(t: GraphValue, s: GraphValue) returns (k: nat)
    ensures k == Added(t, s) && |MergedNodes(t, s)| == |t.nodes| + k
  {
    k := Added(t, s);
    TakeNodesNames(StartMerge(t.nodes), s.nodes);
  }

  lemma {:induction false} MergedPrefix(t: GraphValue, s: GraphValue, i: nat)
    requires i < |t.nodes|
    ensures i < |MergedNodes(t, s)| && MergedNodes(t, s)[i] == t.nodes[i]
  {
    TakeNodesNumbered(StartMerge(t.nodes), s.nodes);
  }

  lemma {:induction false} NewRefs(t: GraphValue, s: GraphValue, j: nat)
    requires |t.nodes| <= j < |MergedNodes(t, s)|
    ensures MergedNodes(t, s)[j].id == SatAdd(MaxRef(t.nodes), j - |t.nodes| + 1)
  {
    TakeNodesNumbered(StartMerge(t.nodes), s.nodes);
  }

  lemma {:induction false} UniqueWithoutSaturation(t: GraphValue, s: GraphValue)
    requires UniqueIds(t.nodes) && MaxRef(t.nodes) + Added(t, s) <= U32_MAX
    ensures UniqueIds(MergedNodes(t, s))
  {
    var nodes, m, n := MergedNodes(t, s), MaxRef(t.nodes), |t.nodes|;
    MergeKeepsTarget(t, s);
    forall j | n <= j < |nodes| ensures nodes[j].id == m + j - n + 1 {
      NewRefs(t, s, j);
    }
    forall i, j | 0 <= i < j < |nodes| ensures nodes[i].id != nodes[j].id {
      if i < n {
        assert nodes[i] == t.nodes[i];
        if j < n {
          assert nodes[j] == t.nodes[j];
        }
      }
    }
  }

  lemma {:induction false} SameRef(nodes: seq<GraphNode>, i: nat, j: nat)
    requires i < j < |nodes| && nodes[i].id == nodes[j].id
    ensures !UniqueIds(nodes)
  {
  }

  lemma {:induction false} CollisionWithTarget(t: GraphValue, s: GraphValue)
    requires Added(t, s) > 0 && MaxRef(t.nodes) == U32_MAX
    ensures !UniqueIds(MergedNodes(t, s))
  {
    var k := MergedSize(t, s);
    NewRefs(t, s, |t.nodes| + k - 1);
    var i :| 0 <= i < |t.nodes| && t.nodes[i].id == U32_MAX;
    MergedPrefix(t, s, i);
    SameRef(MergedNodes(t, s), i, |t.nodes| + k - 1);
  }

  lemma {:induction false} CollisionOfLastTwo(t: GraphValue, s: GraphValue)
    requires MaxRef(t.nodes) < U32_MAX < MaxRef(t.nodes) + Added(t, s)
    ensures !UniqueIds(MergedNodes(t, s))
  {
    var nodes, m := MergedNodes(t, s), MaxRef(t.nodes);
    var k := MergedSize(t, s);
    NewRefs(t, s, |t.nodes| + k - 1);
    NewRefs(t, s, |t.nodes| + k - 2);
    assert SatAdd(m, k) == SatAdd(m, k - 1) == U32_MAX;
    SameRef(nodes, |t.nodes| + k - 2, |t.nodes| + k - 1);
  }

  lemma {:induction false} MappedGrounded(e: GraphEdge, byRef: map<NodeRef, string>, nodes: seq<GraphNode>,
                                          m: GraphEdge)
    requires MapEdge(e, byRef, RefsByName(nodes)) == Some(m)
    ensures EdgeGrounded(m, nodes)
  {
    RefsByNameSound(nodes);
    var i :| 0 <= i < |nodes| && nodes[i].name == byRef[e.source] && nodes[i].id == m.source;
    var j :| 0 <= j < |nodes| && nodes[j].name == byRef[e.target] && nodes[j].id == m.target;
  }

  lemma {:induction false} MergeNoDangling(t: GraphValue, s: GraphValue)
    requires NoDangling(t)
    ensures NoDangling(Merged(t, s))
  {
    var g := Merged(t, s);
    var byRef, refs := NamesByRef(s.nodes), RefsByName(g.nodes);
    MergeKeepsTarget(t, s);
    IdsGrow(t.nodes, g.nodes);
    forall k | 0 <= k < |g.edges| ensures EdgeGrounded(g.edges[k], g.nodes) {
      var e := g.edges[k];
      EdgesTaken(t.edges, s.edges, byRef, refs, e);
      if e in t.edges {
        var m :| 0 <= m < |t.edges| && t.edges[m] == e;
        assert EdgeGrounded(t.edges[m], t.nodes);
      } else {
        var i :| 0 <= i < |s.edges| && MapEdge(s.edges[i], byRef, refs) == Some(e);
        MappedGrounded(s.edges[i], byRef, g.nodes, e);
      }
    }
  }

  lemma {:induction false} IdsGrow(a: seq<GraphNode>, b: seq<GraphNode>)
    requires a <= b
    ensures Ids(a) <= Ids(b)
  {
    forall id | id in Ids(a) ensures id in Ids(b) {
      var i :| 0 <= i < |a| && a[i].id == id;
      assert b[i].id == id;
    }
  }

  /** The merged edges are the target's and the carried-over source edges. */
  lemma {:induction false} EdgesTaken(edges: seq<GraphEdge>, source: seq<GraphEdge>, byRef: map<NodeRef, string>,
                                      refs: map<string, NodeRef>, e: GraphEdge)
    ensures e in TakeEdges(edges, source, byRef, refs)
            <==> e in edges || exists i :: 0 <= i < |source| && MapEdge(source[i], byRef, refs) == Some(e)
    decreases |source|
  {
    if source != [] {
      var init, last := source[..|source| - 1], source[|source| - 1];
      EdgesTaken(edges, init, byRef, refs, e);
      assert source == init + [last];
      if MapEdge(last, byRef, refs) == Some(e) {
        assert source[|source| - 1] == last;
      } else if exists i :: 0 <= i < |source| && MapEdge(source[i], byRef, refs) == Some(e) {
        var i :| 0 <= i < |source| && MapEdge(source[i], byRef, refs) == Some(e);
        assert init[i] == source[i];
      }
      if exists i :: 0 <= i < |init| && MapEdge(init[i], byRef, refs) == Some(e) {
        var i :| 0 <= i < |init| && MapEdge(init[i], byRef, refs) == Some(e);
        assert source[i] == init[i];
      }
    }
  }

  /** Merging into a valid graph gives a valid graph exactly when the new refs fit below the
      largest `u32`; past that the saturating counter hands out one ref twice. */
  lemma {:induction false} MergeValidIff(t: GraphValue, s: GraphValue)
    requires Valid(t)
    ensures Valid(Merged(t, s)) <==> MaxRef(t.nodes) + Added(t, s) <= U32_MAX
  {
    MergeNoDangling(t, s);
    if MaxRef(t.nodes) + Added(t, s) <= U32_MAX {
      UniqueWithoutSaturation(t, s);
    } else if MaxRef(t.nodes) == U32_MAX {
      CollisionWithTarget(t, s);
    } else {
      CollisionOfLastTwo(t, s);
    }
  }
}
