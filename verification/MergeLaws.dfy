/** Laws of the merge: the edge relation it produces, absorption, and agreement with the diff. */
module MergeLaws {
  import opened Base
  import opened Graph
  import opened Payload
  import opened Merge

  // ---------------------------------------------------------------- the edge relation by names

  /** An edge seen through the names of its ends. */
  datatype NamedEdge = NamedEdge(source: string, target: string, kind: EdgeKind, callSite: Option<seq<string>>)

  function Named(e: GraphEdge, byRef: map<NodeRef, string>): Option<NamedEdge> {
    if e.source in byRef && e.target in byRef
    then Some(NamedEdge(byRef[e.source], byRef[e.target], e.kind, e.callSite)) else None
  }

  ghost predicate HasEdge(g: GraphValue, x: NamedEdge) {
    exists e :: e in g.edges && Named(e, NamesByRef(g.nodes)) == Some(x)
  }

  lemma {:induction false} PrefixNames(t: seq<GraphNode>, m: seq<GraphNode>, id: NodeRef)
    requires t <= m && UniqueIds(m) && id in Ids(t)
    ensures id in NamesByRef(t) && id in NamesByRef(m) && NamesByRef(m)[id] == NamesByRef(t)[id]
  {
    var i :| 0 <= i < |t| && t[i].id == id;
    assert m[i] == t[i];
    NamesByRefAt(t, i);
    NamesByRefAt(m, i);
  }

  /** A target edge keeps its names in the merged graph. */
  lemma {:induction false} TargetEdgeNamed(t: GraphValue, m: GraphValue, e: GraphEdge)
    requires t.nodes <= m.nodes && UniqueIds(m.nodes) && EdgeGrounded(e, t.nodes)
    ensures Named(e, NamesByRef(m.nodes)) == Named(e, NamesByRef(t.nodes))
  {
    PrefixNames(t.nodes, m.nodes, e.source);
    PrefixNames(t.nodes, m.nodes, e.target);
  }

  lemma {:induction false} RefNames(nodes: seq<GraphNode>, x: string)
    requires UniqueIds(nodes) && x in RefsByName(nodes)
    ensures RefsByName(nodes)[x] in NamesByRef(nodes) && NamesByRef(nodes)[RefsByName(nodes)[x]] == x
  {
    RefsByNameSound(nodes);
    var i :| 0 <= i < |nodes| && nodes[i].name == x && nodes[i].id == RefsByName(nodes)[x];
    NamesByRefAt(nodes, i);
  }

  /** A carried-over edge has the names it had in the source. */
  lemma {:induction false} SourceEdgeNamed(nodes: seq<GraphNode>, e: GraphEdge, byRef: map<NodeRef, string>,
                                           m: GraphEdge)
    requires UniqueIds(nodes) && MapEdge(e, byRef, RefsByName(nodes)) == Some(m)
    ensures Named(m, NamesByRef(nodes)) == Named(e, byRef)
  {
    RefNames(nodes, byRef[e.source]);
    RefNames(nodes, byRef[e.target]);
  }

  /** Every edge of a valid source is carried over. */
  lemma {:induction false} SourceEdgeMapped(t: GraphValue, s: GraphValue, e: GraphEdge)
    requires EdgeGrounded(e, s.nodes)
    ensures MapEdge(e, NamesByRef(s.nodes), RefsByName(MergedNodes(t, s))).Some?
  {
    NamesByRefKeys(s.nodes);
    NamesInRange(s.nodes, e.source);
    NamesInRange(s.nodes, e.target);
    MergeKeepsTarget(t, s);
    RefsByNameSound(MergedNodes(t, s));
  }

  lemma {:induction false} NamesInRange(nodes: seq<GraphNode>, id: NodeRef)
    requires id in NamesByRef(nodes)
    ensures NamesByRef(nodes)[id] in Names(nodes)
    decreases |nodes|
  {
    if id != nodes[|nodes| - 1].id {
      NamesInRange(nodes[..|nodes| - 1], id);
    }
  }

  lemma {:induction false} MergedEdgeOrigin(t: GraphValue, s: GraphValue, x: NamedEdge)
    requires Valid(t) && Valid(Merged(t, s)) && HasEdge(Merged(t, s), x)
    ensures HasEdge(t, x) || HasEdge(s, x)
  {
    var m := Merged(t, s);
    var byRef, refs := NamesByRef(s.nodes), RefsByName(m.nodes);
    var e :| e in m.edges && Named(e, NamesByRef(m.nodes)) == Some(x);
    MergeKeepsTarget(t, s);
    EdgesTaken(t.edges, s.edges, byRef, refs, e);
    if e in t.edges {
      TargetEdgeNamed(t, m, e);
    } else {
      var i :| 0 <= i < |s.edges| && MapEdge(s.edges[i], byRef, refs) == Some(e);
      SourceEdgeNamed(m.nodes, s.edges[i], byRef, e);
      assert s.edges[i] in s.edges;
    }
  }

  lemma {:induction false} MergedEdgeKept(t: GraphValue, s: GraphValue, x: NamedEdge)
    requires Valid(t) && Valid(s) && Valid(Merged(t, s)) && (HasEdge(t, x) || HasEdge(s, x))
    ensures HasEdge(Merged(t, s), x)
  {
    var m := Merged(t, s);
    var byRef, refs := NamesByRef(s.nodes), RefsByName(m.nodes);
    MergeKeepsTarget(t, s);
    if HasEdge(t, x) {
      var e :| e in t.edges && Named(e, NamesByRef(t.nodes)) == Some(x);
      EdgesTaken(t.edges, s.edges, byRef, refs, e);
      TargetEdgeNamed(t, m, e);
    } else {
      var e :| e in s.edges && Named(e, byRef) == Some(x);
      var i :| 0 <= i < |s.edges| && s.edges[i] == e;
      SourceEdgeMapped(t, s, e);
      var e' := MapEdge(e, byRef, refs).value;
      EdgesTaken(t.edges, s.edges, byRef, refs, e');
      SourceEdgeNamed(m.nodes, e, byRef, e');
    }
  }

  /** Merging is a union on edges: by source name, target name, kind and call-site data the
      merged graph has exactly the edges of the two graphs. */
  lemma {:induction false} MergeUnitesEdges(t: GraphValue, s: GraphValue, x: NamedEdge)
    requires Valid(t) && Valid(s)
    requires MaxRef(t.nodes) + Added(t, s) <= U32_MAX
    ensures HasEdge(Merged(t, s), x) <==> HasEdge(t, x) || HasEdge(s, x)
  {
    MergeValidIff(t, s);
    if HasEdge(Merged(t, s), x) {
      MergedEdgeOrigin(t, s, x);
    }
    if HasEdge(t, x) || HasEdge(s, x) {
      MergedEdgeKept(t, s, x);
    }
  }

  // ---------------------------------------------------------------- absorption

  lemma {:induction false} KnownNamesAddNothing(st: NodeMerge, nodes: seq<GraphNode>)
    requires Names(nodes) <= Names(st.nodes)
    ensures TakeNodes(st, nodes).nodes == st.nodes
    decreases |nodes|
  {
    if nodes != [] {
      var init, n := nodes[..|nodes| - 1], nodes[|nodes| - 1];
      KnownNamesAddNothing(st, init);
      TakeNodeEffect(TakeNodes(st, init), n);
    }
  }

  lemma {:induction false} KnownEdgesAddNothing(edges: seq<GraphEdge>, source: seq<GraphEdge>,
                                                byRef: map<NodeRef, string>, refs: map<string, NodeRef>)
    requires forall i :: 0 <= i < |source| ==> var m := MapEdge(source[i], byRef, refs); m.Some? ==> m.value in edges
    ensures TakeEdges(edges, source, byRef, refs) == edges
    decreases |source|
  {
    if source != [] {
      var init := source[..|source| - 1];
      assert forall i :: 0 <= i < |init| ==> init[i] == source[i];
      KnownEdgesAddNothing(edges, init, byRef, refs);
    }
  }

  /** Merging the same source a second time changes nothing, for all graphs, valid or not. */
  lemma {:induction false} MergeAbsorbs(t: GraphValue, s: GraphValue)
    ensures Merged(Merged(t, s), s) == Merged(t, s)
  {
    var m := Merged(t, s);
    MergeKeepsTarget(t, s);
    KnownNamesAddNothing(StartMerge(m.nodes), s.nodes);
    var byRef, refs := NamesByRef(s.nodes), RefsByName(m.nodes);
    forall i | 0 <= i < |s.edges|
      ensures var e := MapEdge(s.edges[i], byRef, refs); e.Some? ==> e.value in m.edges
    {
      var e := MapEdge(s.edges[i], byRef, refs);
      if e.Some? {
        EdgesTaken(t.edges, s.edges, byRef, refs, e.value);
      }
    }
    KnownEdgesAddNothing(m.edges, s.edges, byRef, refs);
  }

  // ---------------------------------------------------------------- the diff

  function NameOf(n: GraphNode): string {
    n.name
  }

  function NodesByName(nodes: seq<GraphNode>): map<string, GraphNode> {
    IndexBy(nodes, NameOf)
  }

  datatype SemanticDiff = SemanticDiff(
    addedNodes: map<string, GraphNode>,
    removedNodes: map<string, GraphNode>,
    changedNodes: map<string, (GraphNode, GraphNode)>,
    addedEdges: set<GraphEdge>,
    removedEdges: set<GraphEdge>,
    effectsChanged: map<string, (Option<seq<string>>, Option<seq<string>>)>,
    contractsChanged: map<string, (Option<ContractClauses>, Option<ContractClauses>)>,
    capabilitiesChanged: map<string, (Option<seq<string>>, Option<seq<string>>)>)

  /** The names under which one field differs, with what it was and what it is. */
  function EffectsChanged(na: map<string, GraphNode>, nb: map<string, GraphNode>, names: set<string>)
    : map<string, (Option<seq<string>>, Option<seq<string>>)>
  {
    map x | x in names && x in na && x in nb && na[x].effectRow != nb[x].effectRow :: (na[x].effectRow, nb[x].effectRow)
  }

  function ContractsChanged(na: map<string, GraphNode>, nb: map<string, GraphNode>, names: set<string>)
    : map<string, (Option<ContractClauses>, Option<ContractClauses>)>
  {
    map x | x in names && x in na && x in nb && na[x].contractClauses != nb[x].contractClauses
      :: (na[x].contractClauses, nb[x].contractClauses)
  }

  function CapabilitiesChanged(na: map<string, GraphNode>, nb: map<string, GraphNode>, names: set<string>)
    : map<string, (Option<seq<string>>, Option<seq<string>>)>
  {
    map x | x in names && x in na && x in nb && na[x].capabilityReqs != nb[x].capabilityReqs
      :: (na[x].capabilityReqs, nb[x].capabilityReqs)
  }

  /** What changed from `a` to `b`, by node name and by whole edge. */
  ghost predicate IsDiff(a: GraphValue, b: GraphValue, d: SemanticDiff) {
    var na, nb := NodesByName(a.nodes), NodesByName(b.nodes);
    var both := na.Keys * nb.Keys;
    && d.addedNodes == nb - na.Keys
    && d.removedNodes == na - nb.Keys
    && d.changedNodes == (map x | x in both && na[x] != nb[x] :: (na[x], nb[x]))
    && d.effectsChanged == EffectsChanged(na, nb, both)
    && d.contractsChanged == ContractsChanged(na, nb, both)
    && d.capabilitiesChanged == CapabilitiesChanged(na, nb, both)
    && d.addedEdges == (set e | e in b.edges && e !in a.edges)
    && d.removedEdges == (set e | e in a.edges && e !in b.edges)
  }

  method BuildNodesByName(nodes: seq<GraphNode>) returns (r: map<string, GraphNode>)
    ensures r == NodesByName(nodes)
  {
    r := map[];
    for i := 0 to |nodes|
      invariant r == NodesByName(nodes[..i])
    {
      assert nodes[..i + 1][..i] == nodes[..i];
      r := r[nodes[i].name := nodes[i]];
    }
    assert nodes[..|nodes|] == nodes;
  }

  /** The changes found so far, by name. */
  datatype Changes = Changes(
    nodes: map<string, (GraphNode, GraphNode)>,
    effects: map<string, (Option<seq<string>>, Option<seq<string>>)>,
    contracts: map<string, (Option<ContractClauses>, Option<ContractClauses>)>,
    capabilities: map<string, (Option<seq<string>>, Option<seq<string>>)>)

  /** The changes under `names`. */
  ghost predicate Collects(na: map<string, GraphNode>, nb: map<string, GraphNode>, names: set<string>, c: Changes)
    requires names <= na.Keys && names <= nb.Keys
  {
    && c.nodes == (map x | x in names && na[x] != nb[x] :: (na[x], nb[x]))
    && c.effects == EffectsChanged(na, nb, names)
    && c.contracts == ContractsChanged(na, nb, names)
    && c.capabilities == CapabilitiesChanged(na, nb, names)
  }

  /** Add what changed from one node to another. */
  method CompareNode(name: string, before: GraphNode, after: GraphNode, found: Changes) returns (c: Changes)
    ensures c.nodes == if before != after then found.nodes[name := (before, after)] else found.nodes
    ensures c.effects == if before.effectRow != after.effectRow
                         then found.effects[name := (before.effectRow, after.effectRow)] else found.effects
    ensures c.contracts == if before.contractClauses != after.contractClauses
                           then found.contracts[name := (before.contractClauses, after.contractClauses)]
                           else found.contracts
    ensures c.capabilities == if before.capabilityReqs != after.capabilityReqs
                              then found.capabilities[name := (before.capabilityReqs, after.capabilityReqs)]
                              else found.capabilities
  {
    c := found;
    if before != after {
      c := c.(nodes := c.nodes[name := (before, after)]);
    }
    if before.effectRow != after.effectRow {
      c := c.(effects := c.effects[name := (before.effectRow, after.effectRow)]);
    }
    if before.contractClauses != after.contractClauses {
      c := c.(contracts := c.contracts[name := (before.contractClauses, after.contractClauses)]);
    }
    if before.capabilityReqs != after.capabilityReqs {
      c := c.(capabilities := c.capabilities[name := (before.capabilityReqs, after.capabilityReqs)]);
    }
  }

  lemma {:induction false} CollectsMore(na: map<string, GraphNode>, nb: map<string, GraphNode>, names: set<string>,
                                        x: string)
    requires names <= na.Keys && names <= nb.Keys && x in na && x in nb && x !in names
    ensures (map y | y in names + {x} && na[y] != nb[y] :: (na[y], nb[y]))
            == var m := map y | y in names && na[y] != nb[y] :: (na[y], nb[y]);
               if na[x] != nb[x] then m[x := (na[x], nb[x])] else m
    ensures EffectsChanged(na, nb, names + {x})
            == if na[x].effectRow != nb[x].effectRow
               then EffectsChanged(na, nb, names)[x := (na[x].effectRow, nb[x].effectRow)]
               else EffectsChanged(na, nb, names)
    ensures ContractsChanged(na, nb, names + {x})
            == if na[x].contractClauses != nb[x].contractClauses
               then ContractsChanged(na, nb, names)[x := (na[x].contractClauses, nb[x].contractClauses)]
               else ContractsChanged(na, nb, names)
    ensures CapabilitiesChanged(na, nb, names + {x})
            == if na[x].capabilityReqs != nb[x].capabilityReqs
               then CapabilitiesChanged(na, nb, names)[x := (na[x].capabilityReqs, nb[x].capabilityReqs)]
               else CapabilitiesChanged(na, nb, names)
  {
  }

  /** Compare the nodes that both sides have. */
  method CompareShared(na: map<string, GraphNode>, nb: map<string, GraphNode>) returns (c: Changes)
    ensures Collects(na, nb, na.Keys * nb.Keys, c)
  {
    c := Changes(map[], map[], map[], map[]);
    var todo := na.Keys * nb.Keys;
    ghost var done: set<string> := {};
    while todo != {}
      invariant done + todo == na.Keys * nb.Keys && done !! todo
      invariant Collects(na, nb, done, c)
      decreases todo
    {
      var name :| name in todo;
      c := CompareNode(name, na[name], nb[name], c);
      CollectsMore(na, nb, done, name);
      todo, done := todo - {name}, done + {name};
    }
  }

  /** Compare two graphs by node name. */
  method SemanticDiffGraphs(a: GraphValue, b: GraphValue) returns (d: SemanticDiff)
    ensures IsDiff(a, b, d)
  {
    var na := BuildNodesByName(a.nodes);
    var nb := BuildNodesByName(b.nodes);
    var c := CompareShared(na, nb);
    d := SemanticDiff(nb - na.Keys, na - nb.Keys, c.nodes,
                      (set e | e in b.edges && e !in a.edges), (set e | e in a.edges && e !in b.edges),
                      c.effects, c.contracts, c.capabilities);
  }

  function Swapped<T>(m: map<string, (T, T)>): map<string, (T, T)> {
    map x | x in m :: (m[x].1, m[x].0)
  }

  lemma {:induction false} FieldsSwap(na: map<string, GraphNode>, nb: map<string, GraphNode>, names: set<string>)
    ensures EffectsChanged(nb, na, names) == Swapped(EffectsChanged(na, nb, names))
    ensures ContractsChanged(nb, na, names) == Swapped(ContractsChanged(na, nb, names))
    ensures CapabilitiesChanged(nb, na, names) == Swapped(CapabilitiesChanged(na, nb, names))
  {
  }

  /** The diff and the diff back: added and removed trade places, and so do before and after. */
  lemma {:induction false} DiffReverses(a: GraphValue, b: GraphValue, d: SemanticDiff, r: SemanticDiff)
    requires IsDiff(a, b, d) && IsDiff(b, a, r)
    ensures r.addedNodes == d.removedNodes && r.removedNodes == d.addedNodes
    ensures r.addedEdges == d.removedEdges && r.removedEdges == d.addedEdges
    ensures r.changedNodes.Keys == d.changedNodes.Keys
    ensures forall x :: x in d.changedNodes ==> r.changedNodes[x] == (d.changedNodes[x].1, d.changedNodes[x].0)
    ensures r.effectsChanged == Swapped(d.effectsChanged) && r.contractsChanged == Swapped(d.contractsChanged)
    ensures r.capabilitiesChanged == Swapped(d.capabilitiesChanged)
  {
    var na, nb := NodesByName(a.nodes), NodesByName(b.nodes);
    FieldsSwap(na, nb, na.Keys * nb.Keys);
    assert na.Keys * nb.Keys == nb.Keys * na.Keys;
  }

  lemma {:induction false} ChangedTargets(na: map<string, GraphNode>, nb: map<string, GraphNode>)
    ensures var changed := map x | x in na.Keys * nb.Keys && na[x] != nb[x] :: (na[x], nb[x]);
            (map x | x in changed :: changed[x].1) == (map x | x in na.Keys * nb.Keys && na[x] != nb[x] :: nb[x])
  {
  }

  /** The diff is complete: patching `a`'s nodes and edges with it gives `b`'s. */
  lemma {:induction false} DiffReconstructs(a: GraphValue, b: GraphValue, d: SemanticDiff)
    requires IsDiff(a, b, d)
    ensures (NodesByName(a.nodes) - d.removedNodes.Keys) + d.addedNodes
            + (map x | x in d.changedNodes :: d.changedNodes[x].1)
            == NodesByName(b.nodes)
  {
    PatchMap(NodesByName(a.nodes), NodesByName(b.nodes));
    ChangedTargets(NodesByName(a.nodes), NodesByName(b.nodes));
  }

  lemma {:induction false} DiffReconstructsEdges(a: GraphValue, b: GraphValue, d: SemanticDiff)
    requires IsDiff(a, b, d)
    ensures ((set e | e in a.edges) - d.removedEdges) + d.addedEdges == (set e | e in b.edges)
  {
  }

  // ---------------------------------------------------------------- merge against diff

  lemma {:induction false} IndexPrefix(t: seq<GraphNode>, m: seq<GraphNode>)
    requires t <= m && forall j :: |t| <= j < |m| ==> m[j].name !in Names(t)
    ensures forall x :: x in NodesByName(t) ==> x in NodesByName(m) && NodesByName(m)[x] == NodesByName(t)[x]
    decreases |m|
  {
    if |m| == |t| {
      assert m == t;
    } else {
      var init := m[..|m| - 1];
      assert t <= init;
      IndexPrefix(t, init);
      KeysAreNames(t);
    }
  }

  lemma {:induction false} KeysAreNames(nodes: seq<GraphNode>)
    ensures NodesByName(nodes).Keys == Names(nodes)
    decreases |nodes|
  {
    if nodes != [] {
      KeysAreNames(nodes[..|nodes| - 1]);
    }
  }

  /** An index that another one extends: nothing is removed or changed. */
  lemma {:induction false} ExtendedIndex(na: map<string, GraphNode>, nb: map<string, GraphNode>)
    requires forall x :: x in na ==> x in nb && nb[x] == na[x]
    ensures na - nb.Keys == map[] && (nb - na.Keys).Keys == nb.Keys - na.Keys
    ensures (map x | x in na.Keys * nb.Keys && na[x] != nb[x] :: (na[x], nb[x])) == map[]
    ensures EffectsChanged(na, nb, na.Keys * nb.Keys) == map[]
    ensures ContractsChanged(na, nb, na.Keys * nb.Keys) == map[]
    ensures CapabilitiesChanged(na, nb, na.Keys * nb.Keys) == map[]
  {
  }

  /** Seen from the target, a merge only adds: the diff from the target to the merged graph
      reports no removed or changed node, no removed edge, and exactly the new names as added. */
  lemma {:induction false} MergeOnlyAdds(t: GraphValue, s: GraphValue, d: SemanticDiff)
    requires IsDiff(t, Merged(t, s), d)
    ensures d.removedNodes == map[] && d.changedNodes == map[] && d.removedEdges == {}
    ensures d.effectsChanged == map[] && d.contractsChanged == map[] && d.capabilitiesChanged == map[]
    ensures d.addedNodes.Keys == Names(s.nodes) - Names(t.nodes)
  {
    var m := Merged(t, s);
    MergeKeepsTarget(t, s);
    TakeNodesNumbered(StartMerge(t.nodes), s.nodes);
    IndexPrefix(t.nodes, m.nodes);
    KeysAreNames(t.nodes);
    KeysAreNames(m.nodes);
    ExtendedIndex(NodesByName(t.nodes), NodesByName(m.nodes));
    PrefixMembers(t.edges, m.edges);
  }

  ghost predicate UniqueNames(nodes: seq<GraphNode>) {
    forall i, j :: 0 <= i < j < |nodes| ==> nodes[i].name != nodes[j].name
  }

  lemma {:induction false} FindNamePrefix(a: seq<GraphNode>, b: seq<GraphNode>, x: string)
    requires a <= b && FindName(a, x).Some?
    ensures FindName(b, x) == FindName(a, x)
  {
  }

  lemma {:induction false} FoundIsIndexed(nodes: seq<GraphNode>, x: string)
    requires UniqueNames(nodes) && FindName(nodes, x).Some?
    ensures x in NodesByName(nodes) && NodesByName(nodes)[x] == nodes[FindName(nodes, x).value]
  {
    assert DistinctBy(nodes, NameOf);
    IndexByAt(nodes, NameOf, FindName(nodes, x).value);
  }

  /** Which names a node pass reports, when names are unique on both sides. */
  lemma {:induction false} ReportedNames(t: seq<GraphNode>, nodes: seq<GraphNode>, x: string)
    requires UniqueNames(nodes)
    ensures x in TakeNodes(StartMerge(t), nodes).conflicts
            <==> exists i :: 0 <= i < |nodes| && nodes[i].name == x && DiffersFromTarget(t, nodes[i])
    decreases |nodes|
  {
    if nodes != [] {
      var init, n := nodes[..|nodes| - 1], nodes[|nodes| - 1];
      assert nodes == init + [n];
      assert forall i :: 0 <= i < |init| ==> init[i] == nodes[i];
      ReportedNames(t, init, x);
      ReportStep(t, init, n);
      if x in TakeNodes(StartMerge(t), init).conflicts {
        var i :| 0 <= i < |init| && init[i].name == x && DiffersFromTarget(t, init[i]);
        assert nodes[i].name == x;
      } else if n.name == x && DiffersFromTarget(t, n) {
        assert nodes[|nodes| - 1].name == x;
      }
    }
  }

  ghost predicate DiffersFromTarget(t: seq<GraphNode>, n: GraphNode) {
    FindName(t, n.name).Some? && t[FindName(t, n.name).value] != n
  }

  lemma {:induction false} ReportStep(t: seq<GraphNode>, init: seq<GraphNode>, n: GraphNode)
    requires forall i :: 0 <= i < |init| ==> init[i].name != n.name
    ensures TakeNode(TakeNodes(StartMerge(t), init), n).conflicts
            == TakeNodes(StartMerge(t), init).conflicts + if DiffersFromTarget(t, n) then [n.name] else []
  {
    var st := StartMerge(t);
    var r := TakeNodes(st, init);
    TakeNodesNames(st, init);
    TakeNodesNumbered(st, init);
    NamesMembers(init);
    FindNameNames(r.nodes, n.name);
    FindNameNames(t, n.name);
    if FindName(t, n.name).Some? {
      FindNamePrefix(t, r.nodes, n.name);
    }
  }

  /** On uniquely named graphs the merge conflicts are exactly the nodes that the diff from the
      target to the source reports as changed. */
  lemma {:induction false} ConflictsAreChangedNodes(t: GraphValue, s: GraphValue, d: SemanticDiff, x: string)
    requires UniqueNames(t.nodes) && UniqueNames(s.nodes) && IsDiff(t, s, d)
    ensures x in Conflicts(t, s) <==> x in d.changedNodes
  {
    ReportedNames(t.nodes, s.nodes, x);
    KeysAreNames(t.nodes);
    KeysAreNames(s.nodes);
    FindNameNames(t.nodes, x);
    FindNameNames(s.nodes, x);
    if x in NodesByName(t.nodes) && x in NodesByName(s.nodes) {
      FoundIsIndexed(t.nodes, x);
      FoundIsIndexed(s.nodes, x);
      var k := FindName(s.nodes, x).value;
      assert s.nodes[k].name == x;
      assert forall i :: 0 <= i < |s.nodes| && s.nodes[i].name == x ==> i == k;
    }
  }
}
