/** Payloads that the commutation condition rejects really are at odds: each such pair has a
    valid graph on which the order matters. With the commutation laws this makes the condition exact. */
module Clashes {
  import opened Base
  import opened Graph
  import opened Payload
  import opened Commutation

  /** The order of `p` and `q` matters on `g`. */
  ghost predicate Clash(p: OpPayload, q: OpPayload, g: GraphValue) {
    && Valid(g) && FreshIn(p, g) && FreshIn(q, g)
    && Step(p, Step(q, g)) != Step(q, Step(p, g))
  }

  // ---------------------------------------------------------------- small graphs

  /** A node with nothing but a ref and a name. */
  function Plain(id: NodeRef, name: string): GraphNode {
    NewNode(id, Module, name)
  }

  lemma {:induction false} FoundAt(nodes: seq<GraphNode>, i: nat)
    requires i < |nodes| && forall j :: 0 <= j < i ==> nodes[j].name != nodes[i].name
    ensures FindName(nodes, nodes[i].name) == Some(i) && Resolve(nodes, nodes[i].name) == Some(nodes[i].id)
  {
  }

  lemma {:induction false} NotFound(nodes: seq<GraphNode>, x: string)
    requires forall j :: 0 <= j < |nodes| ==> nodes[j].name != x
    ensures FindName(nodes, x) == None && Resolve(nodes, x) == None
  {
  }

  /** Dropping the first of several nodes with different refs. */
  lemma {:induction false} DropFirst(g: GraphValue)
    requires UniqueIds(g.nodes) && g.nodes != []
    ensures DropNode(g, g.nodes[0].id).nodes == g.nodes[1..]
  {
    DropCuts(g.nodes, 0);
    assert g.nodes[..0] + g.nodes[1..] == g.nodes[1..];
  }

  // ---------------------------------------------------------------- edits

  /** A node that the edit changes. */
  function Stirred(e: NodeEdit, id: NodeRef, name: string): (n: GraphNode)
    ensures n.id == id && n.name == name && EditNode(e, n) != n
  {
    var n := Plain(id, name);
    match e
    case RemoveEffect(x) =>
      var m := n.(effectRow := Some([x]));
      WithoutMember([x], x);
      m
    case RemoveCapabilityReq(x) =>
      var m := n.(capabilityReqs := Some([x]));
      WithoutMember([x], x);
      m
    case RemoveContract(x) =>
      var m := n.(contractClauses := Some(ContractClauses([x], [])));
      WithoutMember([x], x);
      m
    case _ => n
  }

  /** Edits that fail the condition disagree on a bare node. */
  lemma {:induction false} EditsClash(e: NodeEdit, f: NodeEdit, n: GraphNode)
    requires !EditsSwap(e, f) && n == Plain(n.id, n.name)
    ensures EditNode(e, EditNode(f, n)) != EditNode(f, EditNode(e, n))
  {
    if FacetOf(e) == EffectFacet {
      EffectEditsClash(e, f, n);
    } else if FacetOf(e) == CapabilityFacet {
      CapabilityEditsClash(e, f, n);
    } else if FacetOf(e) == ContractFacet {
      ContractEditsClash(e, f, n);
    } else if FacetOf(e) in {ReturnFacet, BodyFacet, TrustFacet, VisibilityFacet, WorkflowFacet} {
      TextEditsClash(e, f, n);
    } else {
      ListEditsClash(e, f, n);
    }
  }

  /** An item that comes first stays first. */
  lemma {:induction false} PushesClash<T(!new)>(x: T, y: T)
    requires x != y
    ensures PushNew(PushNew([], y), x) != PushNew(PushNew([], x), y)
  {
    assert PushNew([], x) == [x] && PushNew([], y) == [y];
    assert PushNew([y], x)[0] == y && PushNew([x], y)[0] == x;
  }

  lemma {:induction false} EffectEditsClash(e: NodeEdit, f: NodeEdit, n: GraphNode)
    requires FacetOf(e) == FacetOf(f) == EffectFacet && !EditsSwap(e, f) && n.effectRow == None
    ensures EditNode(e, EditNode(f, n)) != EditNode(f, EditNode(e, n))
  {
    match (e, f)
    case (AddEffect(x), AddEffect(y)) =>
      PushesClash(x, y);
    case (AddEffect(x), RemoveEffect(_)) =>
      WithoutMember([x], x);
      assert x in [x];
    case (RemoveEffect(_), AddEffect(x)) =>
      WithoutMember([x], x);
      assert x in [x];
  }

  lemma {:induction false} CapabilityEditsClash(e: NodeEdit, f: NodeEdit, n: GraphNode)
    requires FacetOf(e) == FacetOf(f) == CapabilityFacet && !EditsSwap(e, f) && n.capabilityReqs == None
    ensures EditNode(e, EditNode(f, n)) != EditNode(f, EditNode(e, n))
  {
    match (e, f)
    case (AddCapabilityReq(x), AddCapabilityReq(y)) =>
      PushesClash(x, y);
    case (AddCapabilityReq(x), RemoveCapabilityReq(_)) =>
      WithoutMember([x], x);
      assert x in [x];
    case (RemoveCapabilityReq(_), AddCapabilityReq(x)) =>
      WithoutMember([x], x);
      assert x in [x];
  }

  lemma {:induction false} ContractEditsClash(e: NodeEdit, f: NodeEdit, n: GraphNode)
    requires FacetOf(e) == FacetOf(f) == ContractFacet && !EditsSwap(e, f) && n.contractClauses == None
    ensures EditNode(e, EditNode(f, n)) != EditNode(f, EditNode(e, n))
  {
    match (e, f)
    case (AddContract(_, x), AddContract(_, y)) =>
      PushesClash(x, y);
    case (AddContract(_, x), RemoveContract(_)) =>
      WithoutMember([x], x);
      assert x in [x];
    case (RemoveContract(_), AddContract(_, x)) =>
      WithoutMember([x], x);
      assert x in [x];
  }

  lemma {:induction false} TextEditsClash(e: NodeEdit, f: NodeEdit, n: GraphNode)
    requires FacetOf(e) == FacetOf(f) && !EditsSwap(e, f) && n == Plain(n.id, n.name)
    requires FacetOf(e) in {ReturnFacet, BodyFacet, TrustFacet, VisibilityFacet, WorkflowFacet}
    ensures EditNode(e, EditNode(f, n)) != EditNode(f, EditNode(e, n))
  {
    if FacetOf(e) == TrustFacet {
      PushesClash(Written(e), Written(f));
    }
  }

  lemma {:induction false} ListEditsClash(e: NodeEdit, f: NodeEdit, n: GraphNode)
    requires FacetOf(e) == FacetOf(f) && !EditsSwap(e, f) && n == Plain(n.id, n.name)
    requires FacetOf(e) in {ParamFacet, BindingFacet, InferredFacet, DerivedFacet, ArtifactFacet, AssertionFacet}
    ensures EditNode(e, EditNode(f, n)) != EditNode(f, EditNode(e, n))
  {
    match (e, f)
    case (AddParam(x, a), AddParam(y, b)) =>
      var once, twice := EditNode(f, n), EditNode(e, EditNode(f, n));
      assert once.params.value[0] == twice.params.value[0] == ParamDecl(y, b);
      var once', twice' := EditNode(e, n), EditNode(f, EditNode(e, n));
      assert once'.params.value[0] == twice'.params.value[0] == ParamDecl(x, a);
    case (AddBinding(x), AddBinding(y)) => PushesClash(x, y);
    case (AddInferredFact(x), AddInferredFact(y)) => PushesClash(x, y);
    case (AddDerivedImpl(x), AddDerivedImpl(y)) => PushesClash(x, y);
    case (AddGeneratedArtifact(x), AddGeneratedArtifact(y)) => PushesClash(x, y);
    case (AddAssertion(x), AddAssertion(y)) => PushesClash(x, y);
  }

  /** Two edits commute on every node exactly when they satisfy the condition. */
  lemma {:induction false} EditsSwapIff(e: NodeEdit, f: NodeEdit)
    ensures EditsSwap(e, f) <==> forall n: GraphNode :: EditNode(e, EditNode(f, n)) == EditNode(f, EditNode(e, n))
  {
    if EditsSwap(e, f) {
      forall n: GraphNode ensures EditNode(e, EditNode(f, n)) == EditNode(f, EditNode(e, n)) {
        SwappingEditsCommute(e, f, n);
      }
    } else {
      EditsClash(e, f, Plain(0, ""));
    }
  }

  // ---------------------------------------------------------------- graphs on which the order matters

  lemma {:induction false} EditEditClash(t: string, e: NodeEdit, f: NodeEdit) returns (g: GraphValue)
    requires !EditsSwap(e, f)
    ensures Clash(EditByName(t, e), EditByName(t, f), g)
  {
    var n := Plain(0, t);
    g := GraphValue([n], []);
    EditsClash(e, f, n);
    FoundAt([n], 0);
    FoundAt([EditNode(e, n)], 0);
    FoundAt([EditNode(f, n)], 0);
    assert Step(EditByName(t, e), Step(EditByName(t, f), g)).nodes[0] == EditNode(e, EditNode(f, n));
    assert Step(EditByName(t, f), Step(EditByName(t, e), g)).nodes[0] == EditNode(f, EditNode(e, n));
  }

  lemma {:induction false} EditCreateClash(e: NodeEdit, n: GraphNode) returns (g: GraphValue)
    requires EditNode(e, n) != n
    ensures Clash(EditByName(n.name, e), CreateNode(n), g)
  {
    g := EMPTY_GRAPH;
    NotFound([], n.name);
    FoundAt([n], 0);
    assert Step(EditByName(n.name, e), Step(CreateNode(n), g)).nodes[0] == EditNode(e, n);
    assert Step(CreateNode(n), Step(EditByName(n.name, e), g)).nodes[0] == n;
  }

  lemma {:induction false} EditRemoveClash(u: string, e: NodeEdit) returns (g: GraphValue)
    ensures Clash(EditByName(u, e), RemoveNodeByName(u), g)
  {
    g := EditRemoveOn(u, e, Plain(0, u), Stirred(e, 1, u));
  }

  lemma {:induction false} EditRemoveOn(u: string, e: NodeEdit, first: GraphNode, second: GraphNode)
    returns (g: GraphValue)
    requires first.name == second.name == u && first.id != second.id && EditNode(e, second) != second
    ensures Clash(EditByName(u, e), RemoveNodeByName(u), g)
  {
    g := GraphValue([first, second], []);
    FoundAt([first, second], 0);
    RemoveFirst(u, first, second);
    RemoveFirst(u, EditNode(e, first), second);
    FoundAt([second], 0);
    assert Step(EditByName(u, e), g).nodes == [EditNode(e, first), second];
    assert Step(EditByName(u, e), GraphValue([second], [])).nodes[0] == EditNode(e, second);
  }

  lemma {:induction false} RemoveFirst(u: string, first: GraphNode, second: GraphNode)
    requires first.name == u && first.id != second.id
    ensures Step(RemoveNodeByName(u), GraphValue([first, second], [])) == GraphValue([second], [])
  {
    var g := GraphValue([first, second], []);
    FoundAt(g.nodes, 0);
    DropFirst(g);
    assert g.nodes[1..] == [second];
  }

  lemma {:induction false} EditRenameClash(t: string, e: NodeEdit, u: string, v: string) returns (g: GraphValue)
    requires u != v && (t == u || t == v)
    ensures Clash(EditByName(t, e), RenameNodeByName(u, v), g)
  {
    var n := Stirred(e, 0, t).(name := u);
    g := GraphValue([n], []);
    EditIgnoresName(e, n, v);
    EditIgnoresName(e, n, t);
    if t == u {
      EditMissesOldName(e, n, v);
    } else {
      EditMeetsNewName(e, n, v);
    }
  }

  lemma {:induction false} EditMissesOldName(e: NodeEdit, n: GraphNode, v: string)
    requires n.name != v && EditNode(e, n).(name := v) != n.(name := v)
    ensures Step(EditByName(n.name, e), Step(RenameNodeByName(n.name, v), GraphValue([n], [])))
            != Step(RenameNodeByName(n.name, v), Step(EditByName(n.name, e), GraphValue([n], [])))
  {
    var g := GraphValue([n], []);
    var renamed := n.(name := v);
    FoundAt([n], 0);
    FoundAt([EditNode(e, n)], 0);
    NotFound([renamed], n.name);
    assert Step(RenameNodeByName(n.name, v), g).nodes == [renamed];
    assert Step(RenameNodeByName(n.name, v), Step(EditByName(n.name, e), g)).nodes[0] == EditNode(e, n).(name := v);
  }

  lemma {:induction false} EditMeetsNewName(e: NodeEdit, n: GraphNode, v: string)
    requires n.name != v && EditNode(e, n.(name := v)) != n.(name := v)
    ensures Step(EditByName(v, e), Step(RenameNodeByName(n.name, v), GraphValue([n], [])))
            != Step(RenameNodeByName(n.name, v), Step(EditByName(v, e), GraphValue([n], [])))
  {
    var g := GraphValue([n], []);
    var renamed := n.(name := v);
    FoundAt([n], 0);
    NotFound([n], v);
    FoundAt([renamed], 0);
    assert Step(RenameNodeByName(n.name, v), g).nodes == [renamed];
    assert Step(EditByName(v, e), Step(RenameNodeByName(n.name, v), g)).nodes[0] == EditNode(e, renamed);
  }

  lemma {:induction false} EditIgnoresName(e: NodeEdit, n: GraphNode, name: string)
    ensures EditNode(e, n.(name := name)) == EditNode(e, n).(name := name)
  {
  }

  lemma {:induction false} CreationsClash(n: GraphNode, m: GraphNode) returns (g: GraphValue)
    requires n != m
    ensures Clash(CreateNode(n), CreateNode(m), g)
  {
    g := EMPTY_GRAPH;
    assert Step(CreateNode(n), Step(CreateNode(m), g)).nodes[0] == m;
    assert Step(CreateNode(m), Step(CreateNode(n), g)).nodes[0] == n;
  }

  lemma {:induction false} CreateRemoveClash(n: GraphNode) returns (g: GraphValue)
    ensures Clash(CreateNode(n), RemoveNodeByName(n.name), g)
  {
    g := EMPTY_GRAPH;
    NotFound([], n.name);
    FoundAt([n], 0);
    DropFirst(GraphValue([n], []));
    assert Step(CreateNode(n), Step(RemoveNodeByName(n.name), g)).nodes == [n];
    assert Step(RemoveNodeByName(n.name), Step(CreateNode(n), g)).nodes == [];
  }

  lemma {:induction false} CreateRenameClash(n: GraphNode, v: string) returns (g: GraphValue)
    requires v != n.name
    ensures Clash(CreateNode(n), RenameNodeByName(n.name, v), g)
  {
    g := EMPTY_GRAPH;
    NotFound([], n.name);
    FoundAt([n], 0);
    assert Step(CreateNode(n), Step(RenameNodeByName(n.name, v), g)).nodes[0] == n;
    assert Step(RenameNodeByName(n.name, v), Step(CreateNode(n), g)).nodes[0] == n.(name := v);
  }

  lemma {:induction false} CreateAddEdgeClash(n: GraphNode, s: string, t: string, k: EdgeKind) returns (g: GraphValue)
    requires n.name == s || n.name == t
    ensures Clash(CreateNode(n), AddEdgeByName(s, t, k), g)
  {
    var other := if n.name == s then t else s;
    var m := Plain(if n.id == 0 then 1 else 0, other);
    g := if other == n.name then EMPTY_GRAPH else GraphValue([m], []);
    NotFound(g.nodes, n.name);
    AddEdgeUnresolved(s, t, k, g);
    var after := g.nodes + [n];
    ResolveAppended(g.nodes, n, s);
    ResolveAppended(g.nodes, n, t);
    if other != n.name {
      FoundAt([m], 0);
    }
    var a, b := Resolve(after, s), Resolve(after, t);
    AddEdgeResolved(s, t, k, a.value, b.value, GraphValue(after, []));
    assert Step(CreateNode(n), Step(AddEdgeByName(s, t, k), g)).edges == [];
    assert Step(AddEdgeByName(s, t, k), Step(CreateNode(n), g)).edges == [NewEdge(a.value, b.value, k)];
  }

  // ---------------------------------------------------------------- edges

  /** Two nodes with the removed name, and the ends of an edge. */
  function Doubled(u: string, s: string, t: string): (r: seq<GraphNode>)
    ensures UniqueIds(r)
  {
    [Plain(0, u), Plain(1, u), Plain(2, s), Plain(3, t)]
  }

  /** Without the first node both ends are still found, at later nodes. */
  lemma {:induction false} DoubledLookups(u: string, s: string, t: string, x: string)
    requires x in [u, s, t]
    ensures Resolve(Doubled(u, s, t), u) == Some(0)
    ensures var later := Resolve(Doubled(u, s, t)[1..], x); later.Some? && later.value in {1, 2, 3}
    ensures x != u ==> Resolve(Doubled(u, s, t), x) == Resolve(Doubled(u, s, t)[1..], x)
  {
    var nodes := Doubled(u, s, t);
    FoundAt(nodes, 0);
    LaterLookup(u, s, t, x);
    if x != u {
      ResolveCut(nodes, 0, x);
      assert nodes[..0] + nodes[1..] == nodes[1..];
    }
  }

  lemma {:induction false} LaterLookup(u: string, s: string, t: string, x: string)
    requires x in [u, s, t]
    ensures var later := Resolve(Doubled(u, s, t)[1..], x); later.Some? && later.value in {1, 2, 3}
  {
    var later := Doubled(u, s, t)[1..];
    assert later == [Plain(1, u), Plain(2, s), Plain(3, t)];
    assert later[0].name == u && later[1].name == s && later[2].name == t;
  }

  lemma {:induction false} RemoveAddEdgeClash(u: string, s: string, t: string, k: EdgeKind) returns (g: GraphValue)
    requires u == s || u == t
    ensures Clash(RemoveNodeByName(u), AddEdgeByName(s, t, k), g)
  {
    g := GraphValue(Doubled(u, s, t), []);
    AddedEdgeGoes(u, s, t, k, g);
    AddedEdgeStays(u, s, t, k, g);
  }

  lemma {:induction false} AddedEdgeGoes(u: string, s: string, t: string, k: EdgeKind, g: GraphValue)
    requires (u == s || u == t) && g == GraphValue(Doubled(u, s, t), [])
    ensures Step(RemoveNodeByName(u), Step(AddEdgeByName(s, t, k), g)).edges == []
  {
    DoubledLookups(u, s, t, s);
    DoubledLookups(u, s, t, t);
    EdgeGoesWithEnd(u, 0, s, t, k, g);
  }

  /** An edge added at a node goes when the node goes. */
  lemma {:induction false} EdgeGoesWithEnd(u: string, id: NodeRef, s: string, t: string, k: EdgeKind, g: GraphValue)
    requires Resolve(g.nodes, u) == Some(id) && g.edges == [] && (u == s || u == t)
    requires Resolve(g.nodes, s).Some? && Resolve(g.nodes, t).Some?
    ensures Step(RemoveNodeByName(u), Step(AddEdgeByName(s, t, k), g)).edges == []
  {
    var e := NewEdge(Resolve(g.nodes, s).value, Resolve(g.nodes, t).value, k);
    AddEdgeResolved(s, t, k, e.source, e.target, g);
    assert [] + [e] == [e];
    RemoveResolved(u, id, g.(edges := [e]));
    assert Retain([e], Avoids(id)) == [];
  }

  lemma {:induction false} AddedEdgeStays(u: string, s: string, t: string, k: EdgeKind, g: GraphValue)
    requires g == GraphValue(Doubled(u, s, t), [])
    ensures |Step(AddEdgeByName(s, t, k), Step(RemoveNodeByName(u), g)).edges| == 1
  {
    DoubledLookups(u, s, t, s);
    DoubledLookups(u, s, t, t);
    RemoveResolved(u, 0, g);
    DropFirst(g);
    var later := g.nodes[1..];
    AddEdgeResolved(s, t, k, Resolve(later, s).value, Resolve(later, t).value, DropNode(g, 0));
  }

  /** An edge between the nodes found once the first one is gone. */
  lemma {:induction false} LaterEdge(u: string, s: string, t: string, k: EdgeKind) returns (g: GraphValue, e: GraphEdge)
    requires u == s || u == t
    ensures Valid(g) && g.nodes == Doubled(u, s, t)
    ensures Step(RemoveNodeByName(u), Step(RemoveEdgeByName(s, t, k), g)).edges == [e]
    ensures Step(RemoveEdgeByName(s, t, k), Step(RemoveNodeByName(u), g)).edges == []
  {
    DoubledLookups(u, s, t, s);
    DoubledLookups(u, s, t, t);
    LaterIds(u, s, t);
    g, e := LaterEdgeIn(u, s, t, k, Doubled(u, s, t));
  }

  lemma {:induction false} LaterEdgeIn(u: string, s: string, t: string, k: EdgeKind, nodes: seq<GraphNode>)
    returns (g: GraphValue, e: GraphEdge)
    requires (u == s || u == t) && UniqueIds(nodes) && nodes != [] && nodes[0].id == 0 && Resolve(nodes, u) == Some(0)
    requires Resolve(nodes, s).Some? && Resolve(nodes, t).Some? && {1, 2, 3} <= Ids(nodes)
    requires Resolve(nodes[1..], s).Some? && Resolve(nodes[1..], s).value in {1, 2, 3}
    requires Resolve(nodes[1..], t).Some? && Resolve(nodes[1..], t).value in {1, 2, 3}
    ensures Valid(g) && g.nodes == nodes
    ensures Step(RemoveNodeByName(u), Step(RemoveEdgeByName(s, t, k), g)).edges == [e]
    ensures Step(RemoveEdgeByName(s, t, k), Step(RemoveNodeByName(u), g)).edges == []
  {
    e := NewEdge(Resolve(nodes[1..], s).value, Resolve(nodes[1..], t).value, k);
    g := GraphValue(nodes, [e]);
    assert EdgeGrounded(e, nodes);
    OtherEdgeStays(u, 0, s, t, k, e, g);
    EdgeGoesLater(u, 0, s, t, k, e, g);
  }

  /** Once the first node is gone, the names stand for the ends of the edge, and it goes. */
  lemma {:induction false} EdgeGoesLater(u: string, id: NodeRef, s: string, t: string, k: EdgeKind, e: GraphEdge,
                                         g: GraphValue)
    requires g.edges == [e] && UniqueIds(g.nodes) && g.nodes != [] && g.nodes[0].id == id && Avoids(id)(e)
    requires Resolve(g.nodes, u) == Some(id) && e.kind == k
    requires Resolve(g.nodes[1..], s) == Some(e.source) && Resolve(g.nodes[1..], t) == Some(e.target)
    ensures Step(RemoveEdgeByName(s, t, k), Step(RemoveNodeByName(u), g)).edges == []
  {
    RemoveResolved(u, id, g);
    assert Retain([e], Avoids(id)) == [e];
    DropFirst(g);
    EdgeGoes(s, t, k, e, g.nodes[1..]);
  }

  /** An edge between other nodes than those the names stand for stays. */
  lemma {:induction false} OtherEdgeStays(u: string, id: NodeRef, s: string, t: string, k: EdgeKind, e: GraphEdge,
                                          g: GraphValue)
    requires g.edges == [e] && Resolve(g.nodes, u) == Some(id) && (u == s || u == t) && Avoids(id)(e)
    requires Resolve(g.nodes, s).Some? && Resolve(g.nodes, t).Some?
    ensures Step(RemoveNodeByName(u), Step(RemoveEdgeByName(s, t, k), g)).edges == [e]
  {
    var a, b := Resolve(g.nodes, s).value, Resolve(g.nodes, t).value;
    RemoveEdgeResolved(s, t, k, a, b, g);
    assert Retain([e], OtherThan(a, b, k)) == [e];
    RemoveResolved(u, id, g);
    assert Retain([e], Avoids(id)) == [e];
  }

  lemma {:induction false} RemoveRemoveEdgeClash(u: string, s: string, t: string, k: EdgeKind) returns (g: GraphValue)
    requires u == s || u == t
    ensures Clash(RemoveNodeByName(u), RemoveEdgeByName(s, t, k), g)
  {
    var e;
    g, e := LaterEdge(u, s, t, k);
  }

  lemma {:induction false} LaterIds(u: string, s: string, t: string)
    ensures {1, 2, 3} <= Ids(Doubled(u, s, t))
  {
    var nodes := Doubled(u, s, t);
    assert nodes[1].id == 1 && nodes[2].id == 2 && nodes[3].id == 3;
  }

  /** Two ends under their names. */
  function Ends(s: string, t: string): (r: seq<GraphNode>)
    ensures UniqueIds(r)
  {
    [Plain(0, s), Plain(1, t)]
  }

  lemma {:induction false} EndsLookups(s: string, t: string)
    ensures Resolve(Ends(s, t), s) == Some(0)
    ensures Resolve(Ends(s, t), t) == Some(if s == t then 0 else 1)
    ensures {0, 1} <= Ids(Ends(s, t))
  {
    var nodes := Ends(s, t);
    FoundAt(nodes, 0);
    if s != t {
      FoundAt(nodes, 1);
    }
    assert nodes[0].id == 0 && nodes[1].id == 1;
  }

  /** The ends after the first one that is called `u` was renamed away from it. */
  lemma {:induction false} EndsRenamed(u: string, v: string, s: string, t: string)
    requires u != v && (u == s || u == t)
    ensures var nodes := MapFirst(Ends(s, t), u, Renaming(v));
            if s == t then Resolve(nodes, s) == Some(1) else Resolve(nodes, s) == None || Resolve(nodes, t) == None
  {
    EndsLookups(s, t);
    var nodes := Ends(s, t);
    var renamed := MapFirst(nodes, u, Renaming(v));
    if u == s {
      FoundAt(nodes, 0);
      assert renamed[0].name == v && renamed[1] == nodes[1];
      if t == u {
        FoundAt(renamed, 1);
      } else {
        NotFound(renamed, u);
      }
    } else {
      FoundAt(nodes, 1);
      assert renamed[0] == nodes[0] && renamed[1].name == v;
      NotFound(renamed, u);
    }
  }

  /** An end that only the renaming supplies. */
  lemma {:induction false} EndSupplied(u: string, v: string, o: string)
    requires u != v && o != v
    ensures Resolve(Ends(u, o), v) == None
    ensures var nodes := MapFirst(Ends(u, o), u, Renaming(v));
            Resolve(nodes, v) == Some(0) && (o != u ==> Resolve(nodes, o) == Some(1))
  {
    var nodes := Ends(u, o);
    NotFound(nodes, v);
    FoundAt(nodes, 0);
    var renamed := MapFirst(nodes, u, Renaming(v));
    assert renamed[0].name == v && renamed[0].id == 0 && renamed[1] == nodes[1];
    FoundAt(renamed, 0);
    if o != u {
      FoundAt(renamed, 1);
    }
  }

  lemma {:induction false} RenameAddEdgeClash(u: string, v: string, s: string, t: string, k: EdgeKind)
    returns (g: GraphValue)
    requires u != v && (u == s || u == t || v == s || v == t)
    ensures Clash(RenameNodeByName(u, v), AddEdgeByName(s, t, k), g)
  {
    if u == s || u == t {
      g := GraphValue(Ends(s, t), []);
      EndsLookups(s, t);
      EndsRenamed(u, v, s, t);
      var e := NewEdge(Resolve(g.nodes, s).value, Resolve(g.nodes, t).value, k);
      AddEdgeResolved(s, t, k, e.source, e.target, g);
      assert Step(RenameNodeByName(u, v), Step(AddEdgeByName(s, t, k), g)).edges == [e];
      var renamed := g.(nodes := MapFirst(g.nodes, u, Renaming(v)));
      if s == t {
        AddEdgeResolved(s, t, k, 1, 1, renamed);
        assert Step(AddEdgeByName(s, t, k), renamed).edges[0] != e;
      } else {
        AddEdgeUnresolved(s, t, k, renamed);
      }
    } else {
      var o := if v != s then s else if v != t then t else u;
      g := GraphValue(Ends(u, o), []);
      EndSupplied(u, v, o);
      AddEdgeUnresolved(s, t, k, g);
      var renamed := g.(nodes := MapFirst(g.nodes, u, Renaming(v)));
      AddEdgeResolved(s, t, k, Resolve(renamed.nodes, s).value, Resolve(renamed.nodes, t).value, renamed);
      assert Step(RenameNodeByName(u, v), Step(AddEdgeByName(s, t, k), g)).edges == [];
      assert |Step(AddEdgeByName(s, t, k), Step(RenameNodeByName(u, v), g)).edges| == 1;
    }
  }

  lemma {:induction false} RenameRemoveEdgeClash(u: string, v: string, s: string, t: string, k: EdgeKind)
    returns (g: GraphValue)
    requires u != v && (u == s || u == t || v == s || v == t)
    ensures Clash(RenameNodeByName(u, v), RemoveEdgeByName(s, t, k), g)
  {
    if u == s || u == t {
      EndsLookups(s, t);
      EndsRenamed(u, v, s, t);
      var e := NewEdge(Resolve(Ends(s, t), s).value, Resolve(Ends(s, t), t).value, k);
      g := GraphValue(Ends(s, t), [e]);
      RemoveEdgeResolved(s, t, k, e.source, e.target, g);
      assert Retain([e], OtherThan(e.source, e.target, k)) == [];
      assert Step(RenameNodeByName(u, v), Step(RemoveEdgeByName(s, t, k), g)).edges == [];
      var renamed := g.(nodes := MapFirst(g.nodes, u, Renaming(v)));
      assert Retain([e], OtherThan(1, 1, k)) == [e];
      assert Step(RemoveEdgeByName(s, t, k), renamed).edges == [e];
    } else {
      g := SuppliedEdgeClash(u, v, s, t, k);
    }
  }

  lemma {:induction false} SuppliedEdgeClash(u: string, v: string, s: string, t: string, k: EdgeKind)
    returns (g: GraphValue)
    requires u != v && u != s && u != t && (v == s || v == t)
    ensures Clash(RenameNodeByName(u, v), RemoveEdgeByName(s, t, k), g)
  {
    var o := if v != s then s else if v != t then t else u;
    EndSupplied(u, v, o);
    EndsLookups(u, o);
    g := SuppliedEdgeIn(u, v, s, t, k, Ends(u, o));
  }

  lemma {:induction false} SuppliedEdgeIn(u: string, v: string, s: string, t: string, k: EdgeKind,
                                          nodes: seq<GraphNode>)
    returns (g: GraphValue)
    requires UniqueIds(nodes) && {0, 1} <= Ids(nodes) && (Resolve(nodes, s) == None || Resolve(nodes, t) == None)
    requires var renamed := MapFirst(nodes, u, Renaming(v));
             && Resolve(renamed, s).Some? && Resolve(renamed, s).value in {0, 1}
             && Resolve(renamed, t).Some? && Resolve(renamed, t).value in {0, 1}
    ensures Clash(RenameNodeByName(u, v), RemoveEdgeByName(s, t, k), g)
  {
    var renamed := MapFirst(nodes, u, Renaming(v));
    var e := NewEdge(Resolve(renamed, s).value, Resolve(renamed, t).value, k);
    g := GraphValue(nodes, [e]);
    assert EdgeGrounded(e, nodes);
    SuppliedEdgeGoes(u, v, s, t, k, e, g);
  }

  lemma {:induction false} SuppliedEdgeGoes(u: string, v: string, s: string, t: string, k: EdgeKind, e: GraphEdge,
                                            g: GraphValue)
    requires Resolve(g.nodes, s) == None || Resolve(g.nodes, t) == None
    requires var nodes := MapFirst(g.nodes, u, Renaming(v));
             Resolve(nodes, s) == Some(e.source) && Resolve(nodes, t) == Some(e.target) && e.kind == k
    requires g.edges == [e]
    ensures Step(RenameNodeByName(u, v), Step(RemoveEdgeByName(s, t, k), g))
            != Step(RemoveEdgeByName(s, t, k), Step(RenameNodeByName(u, v), g))
  {
    RemoveEdgeUnresolved(s, t, k, g);
    RenameKeepsEdges(u, v, g);
    EdgeGoes(s, t, k, e, MapFirst(g.nodes, u, Renaming(v)));
  }

  lemma {:induction false} RenameKeepsEdges(u: string, v: string, g: GraphValue)
    ensures Step(RenameNodeByName(u, v), g) == GraphValue(MapFirst(g.nodes, u, Renaming(v)), g.edges)
  {
  }

  /** The only edge is removed. */
  lemma {:induction false} EdgeGoes(s: string, t: string, k: EdgeKind, e: GraphEdge, nodes: seq<GraphNode>)
    requires Resolve(nodes, s) == Some(e.source) && Resolve(nodes, t) == Some(e.target) && e.kind == k
    ensures Step(RemoveEdgeByName(s, t, k), GraphValue(nodes, [e])).edges == []
  {
    RemoveEdgeResolved(s, t, k, e.source, e.target, GraphValue(nodes, [e]));
    assert Retain([e], OtherThan(e.source, e.target, k)) == [];
  }

  lemma {:induction false} AddRemoveEdgeClash(s: string, t: string, k: EdgeKind) returns (g: GraphValue)
    ensures Clash(AddEdgeByName(s, t, k), RemoveEdgeByName(s, t, k), g)
  {
    g := GraphValue(Ends(s, t), []);
    EndsLookups(s, t);
    var a, b := Resolve(g.nodes, s).value, Resolve(g.nodes, t).value;
    var e := NewEdge(a, b, k);
    AddEdgeResolved(s, t, k, a, b, g);
    RemoveEdgeResolved(s, t, k, a, b, g);
    RemoveEdgeResolved(s, t, k, a, b, g.(edges := [e]));
    assert Retain([e], OtherThan(a, b, k)) == [];
    assert Step(AddEdgeByName(s, t, k), Step(RemoveEdgeByName(s, t, k), g)).edges == [e];
    assert Step(RemoveEdgeByName(s, t, k), Step(AddEdgeByName(s, t, k), g)).edges == [];
  }

  lemma {:induction false} AddEdgesClash(s: string, t: string, k: EdgeKind, s': string, t': string, k': EdgeKind)
    returns (g: GraphValue)
    requires (s, t, k) != (s', t', k')
    ensures Clash(AddEdgeByName(s, t, k), AddEdgeByName(s', t', k'), g)
  {
    var nodes := [Plain(0, s), Plain(1, t), Plain(2, s'), Plain(3, t')];
    g := GraphValue(nodes, []);
    assert nodes[0].name == s && nodes[1].name == t && nodes[2].name == s' && nodes[3].name == t';
    assert Valid(g);
    EdgeOrderMatters(s, t, k, s', t', k', nodes);
  }

  lemma {:induction false} EdgeOrderMatters(s: string, t: string, k: EdgeKind, s': string, t': string, k': EdgeKind,
                                            nodes: seq<GraphNode>)
    requires (s, t, k) != (s', t', k') && UniqueIds(nodes)
    requires Resolve(nodes, s).Some? && Resolve(nodes, t).Some? && Resolve(nodes, s').Some? && Resolve(nodes, t').Some?
    ensures var g := GraphValue(nodes, []);
            Step(AddEdgeByName(s, t, k), Step(AddEdgeByName(s', t', k'), g))
            != Step(AddEdgeByName(s', t', k'), Step(AddEdgeByName(s, t, k), g))
  {
    var e := NewEdge(Resolve(nodes, s).value, Resolve(nodes, t).value, k);
    var e' := NewEdge(Resolve(nodes, s').value, Resolve(nodes, t').value, k');
    if s != s' { ResolveSeparates(nodes, s, s'); }
    if t != t' { ResolveSeparates(nodes, t, t'); }
    assert e != e';
    TwoEdges(s, t, e, s', t', e', nodes);
    TwoEdges(s', t', e', s, t, e, nodes);
    assert [e', e][0] != [e, e'][0];
  }

  lemma {:induction false} TwoEdges(s: string, t: string, e: GraphEdge, s': string, t': string, e': GraphEdge,
                                    nodes: seq<GraphNode>)
    requires Resolve(nodes, s) == Some(e.source) && Resolve(nodes, t) == Some(e.target) && e.callSite == None
    requires Resolve(nodes, s') == Some(e'.source) && Resolve(nodes, t') == Some(e'.target) && e'.callSite == None
    ensures Step(AddEdgeByName(s, t, e.kind), Step(AddEdgeByName(s', t', e'.kind), GraphValue(nodes, []))).edges
            == [e', e]
  {
    AddEdgeResolved(s', t', e'.kind, e'.source, e'.target, GraphValue(nodes, []));
    assert [] + [e'] == [e'];
    AddEdgeResolved(s, t, e.kind, e.source, e.target, GraphValue(nodes, [e']));
  }

  // ---------------------------------------------------------------- names

  lemma {:induction false} RemoveRenameClash(u: string, w: string, v: string) returns (g: GraphValue)
    requires w != v && (u == w || u == v)
    ensures Clash(RemoveNodeByName(u), RenameNodeByName(w, v), g)
  {
    var n, m := Plain(0, w), Plain(0, v);
    g := GraphValue([n], []);
    FoundAt([n], 0);
    FoundAt([m], 0);
    NotFound([], w);
    DropFirst(g);
    DropFirst(GraphValue([m], []));
    assert Step(RenameNodeByName(w, v), g).nodes == [m];
    if u == w {
      NotFound([m], u);
      assert Step(RemoveNodeByName(u), g).nodes == [];
    } else {
      NotFound([n], u);
      assert Step(RemoveNodeByName(u), Step(RenameNodeByName(w, v), g)).nodes == [];
    }
  }

  lemma {:induction false} RenamesClash(u: string, v: string, w: string, x: string) returns (g: GraphValue)
    requires u != v && w != x && !(u == w && v == x) && (u == w || v == w)
    ensures Clash(RenameNodeByName(u, v), RenameNodeByName(w, x), g)
  {
    g := GraphValue([Plain(0, u)], []);
    FoundAt([Plain(0, u)], 0);
    FoundAt([Plain(0, v)], 0);
    FoundAt([Plain(0, x)], 0);
    assert Step(RenameNodeByName(u, v), g).nodes == [Plain(0, v)];
    if u == w {
      NotFound([Plain(0, x)], u);
      NotFound([Plain(0, v)], w);
      assert Step(RenameNodeByName(w, x), g).nodes == [Plain(0, x)];
    } else {
      NotFound([Plain(0, u)], w);
    }
    assert Step(RenameNodeByName(u, v), Step(RenameNodeByName(w, x), g)).nodes[0].name
           != Step(RenameNodeByName(w, x), Step(RenameNodeByName(u, v), g)).nodes[0].name;
  }

  // ---------------------------------------------------------------- the exact law

  lemma {:induction false} EditClash(t: string, e: NodeEdit, q: OpPayload) returns (g: GraphValue)
    requires ByName(q) && !Commuting(EditByName(t, e), q)
    ensures Clash(EditByName(t, e), q, g)
  {
    match q
    case EditByName(u, f) => g := EditEditClash(t, e, f);
    case CreateNode(n) => g := EditCreateClash(e, n);
    case RemoveNodeByName(u) => g := EditRemoveClash(u, e);
    case RenameNodeByName(u, v) => g := EditRenameClash(t, e, u, v);
  }

  lemma {:induction false} CreateClash(n: GraphNode, q: OpPayload) returns (g: GraphValue)
    requires ByName(q) && !q.EditByName? && !Commuting(CreateNode(n), q)
    ensures Clash(CreateNode(n), q, g)
  {
    match q
    case CreateNode(m) => g := CreationsClash(n, m);
    case RemoveNodeByName(_) => g := CreateRemoveClash(n);
    case RenameNodeByName(_, v) => g := CreateRenameClash(n, v);
    case AddEdgeByName(s, t, k) => g := CreateAddEdgeClash(n, s, t, k);
  }

  lemma {:induction false} NodeClash(p: OpPayload, q: OpPayload) returns (g: GraphValue)
    requires p.RemoveNodeByName? || p.RenameNodeByName?
    requires ByName(q) && !q.EditByName? && !q.CreateNode? && !Commuting(p, q)
    ensures Clash(p, q, g) || Clash(q, p, g)
  {
    match (p, q)
    case (RemoveNodeByName(u), RenameNodeByName(w, v)) => g := RemoveRenameClash(u, w, v);
    case (RenameNodeByName(w, v), RemoveNodeByName(u)) => g := RemoveRenameClash(u, w, v);
    case (RemoveNodeByName(u), AddEdgeByName(s, t, k)) => g := RemoveAddEdgeClash(u, s, t, k);
    case (RemoveNodeByName(u), RemoveEdgeByName(s, t, k)) => g := RemoveRemoveEdgeClash(u, s, t, k);
    case (RenameNodeByName(u, v), AddEdgeByName(s, t, k)) => g := RenameAddEdgeClash(u, v, s, t, k);
    case (RenameNodeByName(u, v), RemoveEdgeByName(s, t, k)) => g := RenameRemoveEdgeClash(u, v, s, t, k);
    case (RenameNodeByName(u, v), RenameNodeByName(w, x)) =>
      if u == w || v == w {
        g := RenamesClash(u, v, w, x);
      } else {
        g := RenamesClash(w, x, u, v);
      }
  }

  lemma {:induction false} EdgeClash(p: OpPayload, q: OpPayload) returns (g: GraphValue)
    requires p.AddEdgeByName? || p.RemoveEdgeByName?
    requires q.AddEdgeByName? || q.RemoveEdgeByName?
    requires !Commuting(p, q)
    ensures Clash(p, q, g) || Clash(q, p, g)
  {
    match (p, q)
    case (AddEdgeByName(s, t, k), AddEdgeByName(s', t', k')) => g := AddEdgesClash(s, t, k, s', t', k');
    case (AddEdgeByName(s, t, k), RemoveEdgeByName(_, _, _)) => g := AddRemoveEdgeClash(s, t, k);
    case (RemoveEdgeByName(s, t, k), AddEdgeByName(_, _, _)) => g := AddRemoveEdgeClash(s, t, k);
  }

  /** Payloads by name that do not satisfy the condition disagree on some valid graph. */
  lemma {:induction false} OddsClash(p: OpPayload, q: OpPayload) returns (g: GraphValue)
    requires ByName(p) && ByName(q) && !Commuting(p, q)
    ensures Clash(p, q, g)
  {
    if p.EditByName? {
      g := EditClash(p.target, p.edit, q);
    } else if q.EditByName? {
      g := EditClash(q.target, q.edit, p);
    } else if p.CreateNode? {
      g := CreateClash(p.node, q);
    } else if q.CreateNode? {
      g := CreateClash(q.node, p);
    } else if p.RemoveNodeByName? || p.RenameNodeByName? {
      g := NodeClash(p, q);
    } else if q.RemoveNodeByName? || q.RenameNodeByName? {
      g := NodeClash(q, p);
    } else {
      g := EdgeClash(p, q);
    }
  }

  /** The exact law: two payloads by name commute on every valid graph in which a created ref
      is new if and only if they satisfy the condition. */
  lemma {:induction false} CommutingIff(p: OpPayload, q: OpPayload)
    requires ByName(p) && ByName(q)
    ensures Commuting(p, q) <==>
              forall g :: Valid(g) && FreshIn(p, g) && FreshIn(q, g) ==> Step(p, Step(q, g)) == Step(q, Step(p, g))
  {
    if Commuting(p, q) {
      forall g | Valid(g) && FreshIn(p, g) && FreshIn(q, g) ensures Step(p, Step(q, g)) == Step(q, Step(p, g)) {
        CommutingCommute(p, q, g);
      }
    } else {
      var g := OddsClash(p, q);
    }
  }
}
