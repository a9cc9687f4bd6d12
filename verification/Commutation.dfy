/** Which payloads can change places: an exact, computable condition for payloads by name. */
module Commutation {
  import opened Base
  import opened Graph
  import opened Payload

  // ---------------------------------------------------------------- when payloads commute

  /** The text an edit of the return type, the body or the trust tags writes. */
  function Written(edit: NodeEdit): string {
    match edit
    case SetReturn(ty) => ty
    case SetBody(body) => body
    case SetMetadata(key, value) => if FacetOf(edit) == TrustFacet then key + "=" + value else value
    case _ => ""
  }

  /** Two edits of one node can change places: they write different facets, or have the same
      effect, or are an addition to and a removal from a list that meet in no item, or two removals. */
  predicate EditsSwap(e: NodeEdit, f: NodeEdit) {
    || FacetOf(e) != FacetOf(f)
    || match (e, f)
       case (RemoveEffect(_), RemoveEffect(_)) => true
       case (AddEffect(x), RemoveEffect(y)) => x != y
       case (RemoveEffect(x), AddEffect(y)) => x != y
       case (RemoveCapabilityReq(_), RemoveCapabilityReq(_)) => true
       case (AddCapabilityReq(x), RemoveCapabilityReq(y)) => x != y
       case (RemoveCapabilityReq(x), AddCapabilityReq(y)) => x != y
       case (RemoveContract(_), RemoveContract(_)) => true
       case (AddContract(_, x), RemoveContract(y)) => x != y
       case (RemoveContract(x), AddContract(_, y)) => x != y
       case (AddContract(k, x), AddContract(l, y)) => (k == "requires") != (l == "requires") || x == y
       case _ => if FacetOf(e) in {ReturnFacet, BodyFacet, TrustFacet} then Written(e) == Written(f) else e == f
  }

  /** `p` and `q` can change places; asked in one order of the two constructors. */
  predicate Separate(p: OpPayload, q: OpPayload) {
    match (p, q)
    case (Noop, _) => true
    case (EditByName(t, e), EditByName(u, f)) => t != u || EditsSwap(e, f)
    case (EditByName(t, e), CreateNode(n)) => t != n.name || EditNode(e, n) == n
    case (EditByName(t, _), RemoveNodeByName(u)) => t != u
    case (EditByName(t, _), RenameNodeByName(u, v)) => u == v || (t != u && t != v)
    case (EditByName(_, _), AddEdgeByName(_, _, _)) => true
    case (EditByName(_, _), RemoveEdgeByName(_, _, _)) => true
    case (CreateNode(n), CreateNode(m)) => n == m
    case (CreateNode(n), RemoveNodeByName(u)) => n.name != u
    case (CreateNode(n), RenameNodeByName(u, v)) => u == v || n.name != u
    case (CreateNode(n), AddEdgeByName(s, t, _)) => n.name != s && n.name != t
    case (CreateNode(n), RemoveEdgeByName(_, _, _)) => true
    case (AddEdgeByName(s, t, k), AddEdgeByName(s', t', k')) => (s, t, k) == (s', t', k')
    case (AddEdgeByName(s, t, _), RemoveNodeByName(u)) => u != s && u != t
    case (AddEdgeByName(s, t, _), RenameNodeByName(u, v)) => u == v || (u != s && u != t && v != s && v != t)
    case (AddEdgeByName(s, t, k), RemoveEdgeByName(s', t', k')) => (s, t, k) != (s', t', k')
    case (RemoveNodeByName(_), RemoveNodeByName(_)) => true
    case (RemoveNodeByName(u), RenameNodeByName(w, v)) => w == v || (u != w && u != v)
    case (RemoveNodeByName(u), RemoveEdgeByName(s, t, _)) => u != s && u != t
    case (RenameNodeByName(u, v), RenameNodeByName(w, x)) => p == q || u == v || w == x || (u != w && v != w && x != u)
    case (RenameNodeByName(u, v), RemoveEdgeByName(s, t, _)) => u == v || (u != s && u != t && v != s && v != t)
    case (RemoveEdgeByName(_, _, _), RemoveEdgeByName(_, _, _)) => true
    case _ => false
  }

  /** A rename to the same name. */
  predicate Idle(p: OpPayload) {
    p.RenameNodeByName? && p.target == p.newName
  }

  /** When two payloads by name commute; something a caller can compute. */
  predicate Commuting(p: OpPayload, q: OpPayload) {
    Separate(p, q) || Separate(q, p)
  }

  /** The payloads that documents yield: creations, no-ops and those that find their targets by name. */
  predicate ByName(p: OpPayload) {
    !p.AddEdge? && !p.RemoveNode? && !p.SetNodeName?
  }

  /** A created ref, if any, is new to the graph. */
  ghost predicate FreshIn(p: OpPayload, g: GraphValue) {
    p.CreateNode? ==> p.node.id !in Ids(g.nodes)
  }

  // ---------------------------------------------------------------- lookups across steps

  lemma {:induction false} FindNameSameNames(a: seq<GraphNode>, b: seq<GraphNode>, x: string)
    requires |a| == |b| && forall i :: 0 <= i < |a| ==> (a[i].name == x <==> b[i].name == x)
    ensures FindName(a, x) == FindName(b, x)
  {
  }

  lemma {:induction false} FindNameAppended(nodes: seq<GraphNode>, n: GraphNode, x: string)
    requires x != n.name
    ensures FindName(nodes + [n], x) == FindName(nodes, x)
  {
    var after := nodes + [n];
    assert forall i :: 0 <= i < |nodes| ==> after[i] == nodes[i];
    assert after[|nodes|] == n;
  }

  function NamesOf(nodes: seq<GraphNode>): (r: seq<string>)
    ensures |r| == |nodes| && forall i :: 0 <= i < |r| ==> r[i] == nodes[i].name
  {
    seq(|nodes|, i requires 0 <= i < |nodes| => nodes[i].name)
  }

  lemma {:induction false} FindNameIsFirst(nodes: seq<GraphNode>, x: string)
    ensures FindName(nodes, x) == FirstIndex(NamesOf(nodes), x)
  {
    FirstIndexUnique(NamesOf(nodes), x, FindName(nodes, x));
  }

  lemma {:induction false} FindNameCut(nodes: seq<GraphNode>, i: nat, x: string)
    requires i < |nodes| && nodes[i].name != x
    ensures FindName(nodes, x) != Some(i)
    ensures FindName(nodes[..i] + nodes[i + 1..], x) == Shift(FindName(nodes, x), i)
  {
    var cut := nodes[..i] + nodes[i + 1..];
    var names := NamesOf(nodes);
    FindNameIsFirst(nodes, x);
    FindNameIsFirst(cut, x);
    assert NamesOf(cut) == names[..i] + names[i + 1..];
    FirstIndexCut(names, i, x);
  }

  /** `h` keeps refs, and whether the name is `x`. */
  ghost predicate Respects(h: GraphNode -> GraphNode, x: string) {
    forall n: GraphNode :: h(n).id == n.id && (h(n).name == x <==> n.name == x)
  }

  lemma {:induction false} EditingRespects(e: NodeEdit, x: string)
    ensures Respects(Editing(e), x)
  {
  }

  /** A lookup is not disturbed by a change at another name. */
  lemma {:induction false} FindNameMapped(nodes: seq<GraphNode>, u: string, h: GraphNode -> GraphNode, x: string)
    requires Respects(h, x) || (x != u && forall n: GraphNode :: n.name == u ==> h(n).name != x)
    ensures FindName(MapFirst(nodes, u, h), x) == FindName(nodes, x)
  {
    FindNameSameNames(MapFirst(nodes, u, h), nodes, x);
  }

  // ---------------------------------------------------------------- edits of one node

  lemma {:induction false} PushPull<T(!new)>(s: seq<T>, x: T, y: T)
    requires x != y
    ensures Without(PushNew(s, x), y) == PushNew(Without(s, y), x)
  {
    RetainMembers(s, z => z != y);
    RetainConcat(s, [x], z => z != y);
    assert Retain([x], z => z != y) == [x];
  }

  lemma {:induction false} PullPull<T(!new)>(s: seq<T>, x: T, y: T)
    ensures Without(Without(s, x), y) == Without(Without(s, y), x)
  {
    RetainCommutes(s, z => z != x, z => z != y);
  }

  lemma {:induction false} EffectEditsSwap(e: NodeEdit, f: NodeEdit, n: GraphNode)
    requires FacetOf(e) == FacetOf(f) == EffectFacet && EditsSwap(e, f)
    ensures EditNode(e, EditNode(f, n)) == EditNode(f, EditNode(e, n))
  {
    var row := n.effectRow.GetOr([]);
    match (e, f)
    case (RemoveEffect(x), RemoveEffect(y)) => PullPull(row, x, y);
    case (AddEffect(x), RemoveEffect(y)) => PushPull(row, x, y);
    case (RemoveEffect(x), AddEffect(y)) => PushPull(row, y, x);
    case _ =>
  }

  lemma {:induction false} CapabilityEditsSwap(e: NodeEdit, f: NodeEdit, n: GraphNode)
    requires FacetOf(e) == FacetOf(f) == CapabilityFacet && EditsSwap(e, f)
    ensures EditNode(e, EditNode(f, n)) == EditNode(f, EditNode(e, n))
  {
    var caps := n.capabilityReqs.GetOr([]);
    match (e, f)
    case (RemoveCapabilityReq(x), RemoveCapabilityReq(y)) => PullPull(caps, x, y);
    case (AddCapabilityReq(x), RemoveCapabilityReq(y)) => PushPull(caps, x, y);
    case (RemoveCapabilityReq(x), AddCapabilityReq(y)) => PushPull(caps, y, x);
    case _ =>
  }

  lemma {:induction false} ContractEditsSwap(e: NodeEdit, f: NodeEdit, n: GraphNode)
    requires FacetOf(e) == FacetOf(f) == ContractFacet && EditsSwap(e, f)
    ensures EditNode(e, EditNode(f, n)) == EditNode(f, EditNode(e, n))
  {
    var c := n.contractClauses.GetOr(ContractClauses([], []));
    match (e, f)
    case (RemoveContract(x), RemoveContract(y)) =>
      PullPull(c.pre, x, y);
      PullPull(c.post, x, y);
    case (AddContract(_, x), RemoveContract(y)) =>
      PushPull(c.pre, x, y);
      PushPull(c.post, x, y);
    case (RemoveContract(x), AddContract(_, y)) =>
      PushPull(c.pre, y, x);
      PushPull(c.post, y, x);
    case _ =>
  }

  /** The condition on edits is enough, on every node. */
  lemma {:induction false} SwappingEditsCommute(e: NodeEdit, f: NodeEdit, n: GraphNode)
    requires EditsSwap(e, f)
    ensures EditNode(e, EditNode(f, n)) == EditNode(f, EditNode(e, n))
  {
    if FacetOf(e) != FacetOf(f) {
      EditsCommute(e, f, n);
    } else if FacetOf(e) == EffectFacet {
      EffectEditsSwap(e, f, n);
    } else if FacetOf(e) == CapabilityFacet {
      CapabilityEditsSwap(e, f, n);
    } else if FacetOf(e) == ContractFacet {
      ContractEditsSwap(e, f, n);
    } else if FacetOf(e) in {ReturnFacet, BodyFacet, TrustFacet} {
      SameTextSameEdit(e, f, n);
      SameTextSameEdit(e, f, EditNode(e, n));
    }
  }

  lemma {:induction false} SameTextSameEdit(e: NodeEdit, f: NodeEdit, n: GraphNode)
    requires FacetOf(e) == FacetOf(f) && FacetOf(e) in {ReturnFacet, BodyFacet, TrustFacet} && Written(e) == Written(f)
    ensures EditNode(e, n) == EditNode(f, n)
  {
  }

  // ---------------------------------------------------------------- commutation, pair by pair

  /** Changes at two different names commute when neither disturbs the other's lookup. */
  lemma {:induction false} MapMap(t: string, h: GraphNode -> GraphNode, u: string, k: GraphNode -> GraphNode,
                                  nodes: seq<GraphNode>)
    requires t != u
    requires FindName(MapFirst(nodes, u, k), t) == FindName(nodes, t)
    requires FindName(MapFirst(nodes, t, h), u) == FindName(nodes, u)
    ensures MapFirst(MapFirst(nodes, t, h), u, k) == MapFirst(MapFirst(nodes, u, k), t, h)
  {
  }

  lemma {:induction false} MapAppend(t: string, h: GraphNode -> GraphNode, n: GraphNode, nodes: seq<GraphNode>)
    requires t != n.name
    ensures MapFirst(nodes + [n], t, h) == MapFirst(nodes, t, h) + [n]
  {
    FindNameAppended(nodes, n, t);
  }

  lemma {:induction false} MapCut(t: string, h: GraphNode -> GraphNode, i: nat, nodes: seq<GraphNode>)
    requires i < |nodes| && nodes[i].name != t
    ensures MapFirst(nodes[..i] + nodes[i + 1..], t, h) == MapFirst(nodes, t, h)[..i] + MapFirst(nodes, t, h)[i + 1..]
  {
    FindNameCut(nodes, i, t);
    var k := FindName(nodes, t);
    if k.Some? {
      CutUpdate(nodes, i, k.value, h(nodes[k.value]));
    }
  }

  /** Two edits commute unless they are at odds on the same node. */
  lemma {:induction false} EditEdit(t: string, e: NodeEdit, u: string, f: NodeEdit, nodes: seq<GraphNode>)
    requires t != u || EditsSwap(e, f)
    ensures MapFirst(MapFirst(nodes, t, Editing(e)), u, Editing(f))
            == MapFirst(MapFirst(nodes, u, Editing(f)), t, Editing(e))
  {
    var h, k := Editing(e), Editing(f);
    EditingRespects(e, u);
    EditingRespects(f, t);
    FindNameMapped(nodes, t, h, u);
    FindNameMapped(nodes, u, k, t);
    if t != u {
      MapMap(t, h, u, k, nodes);
    } else if FindName(nodes, t).Some? {
      SwappingEditsCommute(e, f, nodes[FindName(nodes, t).value]);
    }
  }

  lemma {:induction false} EditRename(t: string, e: NodeEdit, u: string, v: string, nodes: seq<GraphNode>)
    requires t != u && t != v
    ensures MapFirst(MapFirst(nodes, t, Editing(e)), u, Renaming(v))
            == MapFirst(MapFirst(nodes, u, Renaming(v)), t, Editing(e))
  {
    EditingRespects(e, u);
    FindNameMapped(nodes, t, Editing(e), u);
    FindNameMapped(nodes, u, Renaming(v), t);
    MapMap(t, Editing(e), u, Renaming(v), nodes);
  }

  lemma {:induction false} DropCuts(nodes: seq<GraphNode>, i: nat)
    requires UniqueIds(nodes) && i < |nodes|
    ensures Retain(nodes, OtherId(nodes[i].id)) == nodes[..i] + nodes[i + 1..]
  {
    var id := nodes[i].id;
    var before, after := nodes[..i], nodes[i + 1..];
    assert nodes == before + [nodes[i]] + after;
    forall y: GraphNode | y in before + after ensures y.id != id {
      if y in before {
        var j :| 0 <= j < i && before[j] == y;
        assert nodes[j] == y;
      } else {
        var j :| 0 <= j < |after| && after[j] == y;
        assert nodes[i + 1 + j] == y;
      }
    }
    RetainCutsOne(before, nodes[i], after, OtherId(id));
  }

  /** A change at one name that keeps refs commutes with the removal of another name. */
  lemma {:induction false} MapRemove(t: string, h: GraphNode -> GraphNode, u: string, g: GraphValue)
    requires t != u && UniqueIds(g.nodes) && forall n: GraphNode :: h(n).id == n.id
    requires FindName(MapFirst(g.nodes, t, h), u) == FindName(g.nodes, u)
    ensures var removed := Step(RemoveNodeByName(u), g);
            Step(RemoveNodeByName(u), g.(nodes := MapFirst(g.nodes, t, h)))
            == removed.(nodes := MapFirst(removed.nodes, t, h))
  {
    var mapped := MapFirst(g.nodes, t, h);
    SameIds(g.nodes, mapped);
    var i := FindName(g.nodes, u);
    if i.Some? {
      MapDrop(t, h, i.value, g.nodes);
    }
  }

  lemma {:induction false} MapDrop(t: string, h: GraphNode -> GraphNode, i: nat, nodes: seq<GraphNode>)
    requires i < |nodes| && nodes[i].name != t && UniqueIds(nodes) && UniqueIds(MapFirst(nodes, t, h))
    ensures MapFirst(Retain(nodes, OtherId(nodes[i].id)), t, h)
            == Retain(MapFirst(nodes, t, h), OtherId(MapFirst(nodes, t, h)[i].id))
  {
    DropCuts(nodes, i);
    DropCuts(MapFirst(nodes, t, h), i);
    MapCut(t, h, i, nodes);
  }

  lemma {:induction false} EditRemove(t: string, e: NodeEdit, u: string, g: GraphValue)
    requires t != u && UniqueIds(g.nodes)
    ensures Step(EditByName(t, e), Step(RemoveNodeByName(u), g)) == Step(RemoveNodeByName(u), Step(EditByName(t, e), g))
  {
    EditingRespects(e, u);
    FindNameMapped(g.nodes, t, Editing(e), u);
    MapRemove(t, Editing(e), u, g);
  }

  lemma {:induction false} RenameRemove(t: string, v: string, u: string, g: GraphValue)
    requires u != t && u != v && UniqueIds(g.nodes)
    ensures Step(RenameNodeByName(t, v), Step(RemoveNodeByName(u), g))
            == Step(RemoveNodeByName(u), Step(RenameNodeByName(t, v), g))
  {
    FindNameMapped(g.nodes, t, Renaming(v), u);
    MapRemove(t, Renaming(v), u, g);
  }

  lemma {:induction false} RenameRename(u: string, v: string, w: string, x: string, nodes: seq<GraphNode>)
    requires u != w && v != w && x != u
    ensures MapFirst(MapFirst(nodes, u, Renaming(v)), w, Renaming(x))
            == MapFirst(MapFirst(nodes, w, Renaming(x)), u, Renaming(v))
  {
    FindNameMapped(nodes, u, Renaming(v), w);
    FindNameMapped(nodes, w, Renaming(x), u);
    MapMap(u, Renaming(v), w, Renaming(x), nodes);
  }

  /** A rename to the same name does nothing. */
  lemma {:induction false} RenameToSelf(u: string, g: GraphValue)
    ensures Step(RenameNodeByName(u, u), g) == g
  {
    var i := FindName(g.nodes, u);
    if i.Some? {
      assert Renaming(u)(g.nodes[i.value]) == g.nodes[i.value];
    }
  }

  /** An edit that leaves the created node alone commutes with the creation. */
  lemma {:induction false} FixedAppend(t: string, h: GraphNode -> GraphNode, n: GraphNode, nodes: seq<GraphNode>)
    requires t != n.name || h(n) == n
    ensures MapFirst(nodes + [n], t, h) == MapFirst(nodes, t, h) + [n]
  {
    if t == n.name {
      FindNameAppendedSame(nodes, n);
    } else {
      MapAppend(t, h, n, nodes);
    }
  }

  lemma {:induction false} FindNameAppendedSame(nodes: seq<GraphNode>, n: GraphNode)
    ensures FindName(nodes + [n], n.name)
            == if FindName(nodes, n.name).Some? then FindName(nodes, n.name) else Some(|nodes|)
  {
    var after := nodes + [n];
    assert forall i :: 0 <= i < |nodes| ==> after[i] == nodes[i];
    assert after[|nodes|] == n;
  }

  lemma {:induction false} RemoveRemove(u: string, w: string, g: GraphValue)
    requires UniqueIds(g.nodes) && u != w
    ensures Step(RemoveNodeByName(u), Step(RemoveNodeByName(w), g))
            == Step(RemoveNodeByName(w), Step(RemoveNodeByName(u), g))
  {
    var a, b := Resolve(g.nodes, u), Resolve(g.nodes, w);
    if a.Some? {
      ResolveDropped(g, u, w);
      RemoveResolved(u, a.value, g);
    }
    if b.Some? {
      ResolveDropped(g, w, u);
      RemoveResolved(w, b.value, g);
    }
    if a.Some? && b.Some? {
      RemoveResolved(w, b.value, DropNode(g, a.value));
      RemoveResolved(u, a.value, DropNode(g, b.value));
      DropsCommute(g, a.value, b.value);
    }
  }

  lemma {:induction false} DropsCommute(g: GraphValue, a: NodeRef, b: NodeRef)
    ensures DropNode(DropNode(g, a), b) == DropNode(DropNode(g, b), a)
  {
    RetainCommutes(g.nodes, OtherId(a), OtherId(b));
    RetainCommutes(g.edges, Avoids(a), Avoids(b));
  }

  /** A new node has no edges, so that the removal of an edge does not miss it. */
  lemma {:induction false} CreateRemoveEdge(n: GraphNode, s: string, t: string, k: EdgeKind, g: GraphValue)
    requires n.id !in Ids(g.nodes) && NoDangling(g)
    ensures Step(CreateNode(n), Step(RemoveEdgeByName(s, t, k), g))
            == Step(RemoveEdgeByName(s, t, k), Step(CreateNode(n), g))
  {
    var after := g.nodes + [n];
    ResolveAppended(g.nodes, n, s);
    ResolveAppended(g.nodes, n, t);
    match (Resolve(after, s), Resolve(after, t))
    case (Some(a), Some(b)) =>
      RemoveEdgeResolved(s, t, k, a, b, g.(nodes := after));
      if a == n.id || b == n.id {
        forall e | e in g.edges ensures OtherThan(a, b, k)(e) {
          var i :| 0 <= i < |g.edges| && g.edges[i] == e;
          assert EdgeGrounded(g.edges[i], g.nodes);
        }
        RetainAll(g.edges, OtherThan(a, b, k));
        RemoveEdgeUnresolved(s, t, k, g);
      } else {
        RemoveEdgeResolved(s, t, k, a, b, g);
      }
    case _ =>
      RemoveEdgeUnresolved(s, t, k, g);
      RemoveEdgeUnresolved(s, t, k, g.(nodes := after));
  }

  /** A created node is found only under a name that found nothing before. */
  lemma {:induction false} ResolveAppended(nodes: seq<GraphNode>, n: GraphNode, x: string)
    ensures Resolve(nodes + [n], x)
            == if Resolve(nodes, x).Some? then Resolve(nodes, x) else if x == n.name then Some(n.id) else None
  {
    if x == n.name {
      FindNameAppendedSame(nodes, n);
    } else {
      FindNameAppended(nodes, n, x);
    }
  }

  lemma {:induction false} RemoveRemoveEdge(u: string, s: string, t: string, k: EdgeKind, g: GraphValue)
    requires u != s && u != t && UniqueIds(g.nodes)
    ensures Step(RemoveNodeByName(u), Step(RemoveEdgeByName(s, t, k), g))
            == Step(RemoveEdgeByName(s, t, k), Step(RemoveNodeByName(u), g))
  {
    RemoveEdgeKeepsNodes(s, t, k, g);
    match Resolve(g.nodes, u)
    case Some(id) =>
      ResolveDropped(g, u, s);
      ResolveDropped(g, u, t);
      RemoveResolved(u, id, g);
      RemoveResolved(u, id, Step(RemoveEdgeByName(s, t, k), g));
      match (Resolve(g.nodes, s), Resolve(g.nodes, t)) {
        case (Some(a), Some(b)) =>
          RemoveEdgeResolved(s, t, k, a, b, g);
          RemoveEdgeResolved(s, t, k, a, b, DropNode(g, id));
          RetainCommutes(g.edges, OtherThan(a, b, k), Avoids(id));
        case _ =>
          RemoveEdgeUnresolved(s, t, k, g);
          RemoveEdgeUnresolved(s, t, k, DropNode(g, id));
      }
    case None =>
  }

  lemma {:induction false} RenameRemoveEdge(u: string, v: string, s: string, t: string, k: EdgeKind, g: GraphValue)
    requires u != s && u != t && v != s && v != t
    ensures Step(RenameNodeByName(u, v), Step(RemoveEdgeByName(s, t, k), g))
            == Step(RemoveEdgeByName(s, t, k), Step(RenameNodeByName(u, v), g))
  {
    RenameKeepsResolve(u, v, g.nodes, s);
    RenameKeepsResolve(u, v, g.nodes, t);
    RemoveEdgeSees(s, t, k, MapFirst(g.nodes, u, Renaming(v)), g);
  }

  lemma {:induction false} RemoveEdges(s: string, t: string, k: EdgeKind, s': string, t': string, k': EdgeKind,
                                       g: GraphValue)
    ensures Step(RemoveEdgeByName(s, t, k), Step(RemoveEdgeByName(s', t', k'), g))
            == Step(RemoveEdgeByName(s', t', k'), Step(RemoveEdgeByName(s, t, k), g))
  {
    RemoveEdgeKeepsNodes(s, t, k, g);
    RemoveEdgeKeepsNodes(s', t', k', g);
    var (a, b, a', b') := (Resolve(g.nodes, s), Resolve(g.nodes, t), Resolve(g.nodes, s'), Resolve(g.nodes, t'));
    if a.Some? && b.Some? && a'.Some? && b'.Some? {
      var keep, keep' := OtherThan(a.value, b.value, k), OtherThan(a'.value, b'.value, k');
      RemoveEdgeResolved(s, t, k, a.value, b.value, g);
      RemoveEdgeResolved(s', t', k', a'.value, b'.value, g);
      RemoveEdgeResolved(s, t, k, a.value, b.value, g.(edges := Retain(g.edges, keep')));
      RemoveEdgeResolved(s', t', k', a'.value, b'.value, g.(edges := Retain(g.edges, keep)));
      RetainCommutes(g.edges, keep, keep');
    } else if a.None? || b.None? {
      RemoveEdgeUnresolved(s, t, k, g);
      RemoveEdgeUnresolved(s, t, k, Step(RemoveEdgeByName(s', t', k'), g));
    } else {
      RemoveEdgeUnresolved(s', t', k', g);
      RemoveEdgeUnresolved(s', t', k', Step(RemoveEdgeByName(s, t, k), g));
    }
  }

  lemma {:induction false} CreateRemove(n: GraphNode, u: string, g: GraphValue)
    requires n.name != u && n.id !in Ids(g.nodes)
    ensures Step(CreateNode(n), Step(RemoveNodeByName(u), g)) == Step(RemoveNodeByName(u), Step(CreateNode(n), g))
  {
    FindNameAppended(g.nodes, n, u);
    var i := FindName(g.nodes, u);
    if i.Some? {
      var id := g.nodes[i.value].id;
      assert id in Ids(g.nodes);
      RetainConcat(g.nodes, [n], OtherId(id));
      assert Retain([n], OtherId(id)) == [n];
    }
  }

  lemma {:induction false} ResolveCut(nodes: seq<GraphNode>, i: nat, x: string)
    requires UniqueIds(nodes) && i < |nodes| && nodes[i].name != x
    ensures Resolve(nodes[..i] + nodes[i + 1..], x) == Resolve(nodes, x)
    ensures Resolve(nodes, x) != Some(nodes[i].id)
  {
    FindNameCut(nodes, i, x);
  }

  /** Different names resolve to different refs. */
  lemma {:induction false} ResolveSeparates(nodes: seq<GraphNode>, s: string, t: string)
    requires UniqueIds(nodes) && s != t && Resolve(nodes, s).Some?
    ensures Resolve(nodes, s) != Resolve(nodes, t)
  {
  }

  lemma {:induction false} ResolveMapped(nodes: seq<GraphNode>, u: string, h: GraphNode -> GraphNode, x: string)
    requires FindName(MapFirst(nodes, u, h), x) == FindName(nodes, x) && forall n: GraphNode :: h(n).id == n.id
    ensures Resolve(MapFirst(nodes, u, h), x) == Resolve(nodes, x)
  {
  }

  /** Appending an edge that a filter keeps commutes with the filter. */
  lemma {:induction false} AppendRetain(edges: seq<GraphEdge>, e: GraphEdge, keep: GraphEdge -> bool)
    requires keep(e)
    ensures Retain(edges + [e], keep) == Retain(edges, keep) + [e]
  {
    RetainConcat(edges, [e], keep);
    assert Retain([e], keep) == [e];
  }

  lemma {:induction false} AddEdgeDrop(s: string, t: string, k: EdgeKind, id: NodeRef, g: GraphValue)
    requires Resolve(DropNode(g, id).nodes, s) == Resolve(g.nodes, s) != Some(id)
    requires Resolve(DropNode(g, id).nodes, t) == Resolve(g.nodes, t) != Some(id)
    ensures Step(AddEdgeByName(s, t, k), DropNode(g, id)) == DropNode(Step(AddEdgeByName(s, t, k), g), id)
  {
    match (Resolve(g.nodes, s), Resolve(g.nodes, t))
    case (Some(a), Some(b)) =>
      AddEdgeResolved(s, t, k, a, b, g);
      AddEdgeResolved(s, t, k, a, b, DropNode(g, id));
      AppendRetain(g.edges, NewEdge(a, b, k), Avoids(id));
    case _ =>
      AddEdgeUnresolved(s, t, k, g);
      AddEdgeUnresolved(s, t, k, DropNode(g, id));
  }

  lemma {:induction false} AddEdgeResolved(s: string, t: string, k: EdgeKind, a: NodeRef, b: NodeRef, g: GraphValue)
    requires Resolve(g.nodes, s) == Some(a) && Resolve(g.nodes, t) == Some(b)
    ensures Step(AddEdgeByName(s, t, k), g) == g.(edges := g.edges + [NewEdge(a, b, k)])
  {
  }

  lemma {:induction false} RemoveEdgeResolved(s: string, t: string, k: EdgeKind, a: NodeRef, b: NodeRef, g: GraphValue)
    requires Resolve(g.nodes, s) == Some(a) && Resolve(g.nodes, t) == Some(b)
    ensures Step(RemoveEdgeByName(s, t, k), g) == g.(edges := Retain(g.edges, OtherThan(a, b, k)))
  {
  }

  lemma {:induction false} AddEdgeUnresolved(s: string, t: string, k: EdgeKind, g: GraphValue)
    requires Resolve(g.nodes, s) == None || Resolve(g.nodes, t) == None
    ensures Step(AddEdgeByName(s, t, k), g) == g
  {
  }

  lemma {:induction false} AddEdgeRemove(s: string, t: string, k: EdgeKind, u: string, g: GraphValue)
    requires u != s && u != t && UniqueIds(g.nodes)
    ensures Step(AddEdgeByName(s, t, k), Step(RemoveNodeByName(u), g))
            == Step(RemoveNodeByName(u), Step(AddEdgeByName(s, t, k), g))
  {
    match Resolve(g.nodes, u)
    case Some(id) =>
      ResolveDropped(g, u, s);
      ResolveDropped(g, u, t);
      AddEdgeDrop(s, t, k, id, g);
      RemoveResolved(u, id, g);
      AddEdgeKeepsNodes(s, t, k, g);
      RemoveResolved(u, id, Step(AddEdgeByName(s, t, k), g));
    case None =>
  }

  lemma {:induction false} AddEdgeKeepsNodes(s: string, t: string, k: EdgeKind, g: GraphValue)
    ensures Step(AddEdgeByName(s, t, k), g).nodes == g.nodes
  {
  }

  lemma {:induction false} RemoveResolved(u: string, id: NodeRef, g: GraphValue)
    requires Resolve(g.nodes, u) == Some(id)
    ensures Step(RemoveNodeByName(u), g) == DropNode(g, id)
  {
  }

  lemma {:induction false} ResolveDropped(g: GraphValue, u: string, x: string)
    requires UniqueIds(g.nodes) && u != x && Resolve(g.nodes, u).Some?
    ensures Resolve(DropNode(g, Resolve(g.nodes, u).value).nodes, x) == Resolve(g.nodes, x) != Resolve(g.nodes, u)
  {
    var i := FindName(g.nodes, u).value;
    DropCuts(g.nodes, i);
    ResolveCut(g.nodes, i, x);
  }

  lemma {:induction false} AddEdgeRemoveEdge(s: string, t: string, k: EdgeKind, s': string, t': string, k': EdgeKind,
                                             g: GraphValue)
    requires (s, t, k) != (s', t', k') && UniqueIds(g.nodes)
    ensures Step(AddEdgeByName(s, t, k), Step(RemoveEdgeByName(s', t', k'), g))
            == Step(RemoveEdgeByName(s', t', k'), Step(AddEdgeByName(s, t, k), g))
  {
    var a, b := Resolve(g.nodes, s), Resolve(g.nodes, t);
    var a', b' := Resolve(g.nodes, s'), Resolve(g.nodes, t');
    if a.None? || b.None? {
      AddEdgeUnresolved(s, t, k, g);
      RemoveEdgeKeepsNodes(s', t', k', g);
      AddEdgeUnresolved(s, t, k, Step(RemoveEdgeByName(s', t', k'), g));
    } else if a'.None? || b'.None? {
      RemoveEdgeUnresolved(s', t', k', g);
      AddEdgeKeepsNodes(s, t, k, g);
      RemoveEdgeUnresolved(s', t', k', Step(AddEdgeByName(s, t, k), g));
    } else {
      if s != s' { ResolveSeparates(g.nodes, s, s'); }
      if t != t' { ResolveSeparates(g.nodes, t, t'); }
      ResolvedAddRemove(s, t, k, s', t', k', g);
    }
  }

  lemma {:induction false} RemoveEdgeUnresolved(s: string, t: string, k: EdgeKind, g: GraphValue)
    requires Resolve(g.nodes, s) == None || Resolve(g.nodes, t) == None
    ensures Step(RemoveEdgeByName(s, t, k), g) == g
  {
  }

  lemma {:induction false} RemoveEdgeKeepsNodes(s: string, t: string, k: EdgeKind, g: GraphValue)
    ensures Step(RemoveEdgeByName(s, t, k), g).nodes == g.nodes
  {
  }

  lemma {:induction false} ResolvedAddRemove(s: string, t: string, k: EdgeKind, s': string, t': string, k': EdgeKind,
                                             g: GraphValue)
    requires Resolve(g.nodes, s).Some? && Resolve(g.nodes, t).Some? && Resolve(g.nodes, s').Some?
             && Resolve(g.nodes, t').Some?
    requires Resolve(g.nodes, s) != Resolve(g.nodes, s') || Resolve(g.nodes, t) != Resolve(g.nodes, t') || k != k'
    ensures Step(AddEdgeByName(s, t, k), Step(RemoveEdgeByName(s', t', k'), g))
            == Step(RemoveEdgeByName(s', t', k'), Step(AddEdgeByName(s, t, k), g))
  {
    var a, b := Resolve(g.nodes, s).value, Resolve(g.nodes, t).value;
    var a', b' := Resolve(g.nodes, s').value, Resolve(g.nodes, t').value;
    AddEdgeResolved(s, t, k, a, b, g);
    RemoveEdgeResolved(s', t', k', a', b', g);
    var removed := g.(edges := Retain(g.edges, OtherThan(a', b', k')));
    var added := g.(edges := g.edges + [NewEdge(a, b, k)]);
    AddEdgeResolved(s, t, k, a, b, removed);
    RemoveEdgeResolved(s', t', k', a', b', added);
    AppendRetain(g.edges, NewEdge(a, b, k), OtherThan(a', b', k'));
  }

  /** Edge operations see the nodes only through the refs their names resolve to. */
  lemma {:induction false} AddEdgeSees(s: string, t: string, k: EdgeKind, nodes: seq<GraphNode>, g: GraphValue)
    requires Resolve(nodes, s) == Resolve(g.nodes, s) && Resolve(nodes, t) == Resolve(g.nodes, t)
    ensures Step(AddEdgeByName(s, t, k), GraphValue(nodes, g.edges))
            == GraphValue(nodes, Step(AddEdgeByName(s, t, k), g).edges)
  {
  }

  lemma {:induction false} RemoveEdgeSees(s: string, t: string, k: EdgeKind, nodes: seq<GraphNode>, g: GraphValue)
    requires Resolve(nodes, s) == Resolve(g.nodes, s) && Resolve(nodes, t) == Resolve(g.nodes, t)
    ensures Step(RemoveEdgeByName(s, t, k), GraphValue(nodes, g.edges))
            == GraphValue(nodes, Step(RemoveEdgeByName(s, t, k), g).edges)
    ensures Step(RemoveEdgeByName(s, t, k), g).nodes == g.nodes
  {
  }

  lemma {:induction false} EditKeepsResolve(t: string, e: NodeEdit, nodes: seq<GraphNode>, x: string)
    ensures Resolve(MapFirst(nodes, t, Editing(e)), x) == Resolve(nodes, x)
  {
    EditingRespects(e, x);
    FindNameMapped(nodes, t, Editing(e), x);
    ResolveMapped(nodes, t, Editing(e), x);
  }

  lemma {:induction false} RenameKeepsResolve(u: string, v: string, nodes: seq<GraphNode>, x: string)
    requires x != u && x != v
    ensures Resolve(MapFirst(nodes, u, Renaming(v)), x) == Resolve(nodes, x)
  {
    FindNameMapped(nodes, u, Renaming(v), x);
    ResolveMapped(nodes, u, Renaming(v), x);
  }

  lemma {:induction false} EditAddEdge(t: string, e: NodeEdit, s: string, u: string, k: EdgeKind, g: GraphValue)
    ensures Step(EditByName(t, e), Step(AddEdgeByName(s, u, k), g))
            == Step(AddEdgeByName(s, u, k), Step(EditByName(t, e), g))
  {
    EditKeepsResolve(t, e, g.nodes, s);
    EditKeepsResolve(t, e, g.nodes, u);
    AddEdgeSees(s, u, k, MapFirst(g.nodes, t, Editing(e)), g);
    AddEdgeKeepsNodes(s, u, k, g);
  }

  lemma {:induction false} EditRemoveEdge(t: string, e: NodeEdit, s: string, u: string, k: EdgeKind, g: GraphValue)
    ensures Step(EditByName(t, e), Step(RemoveEdgeByName(s, u, k), g))
            == Step(RemoveEdgeByName(s, u, k), Step(EditByName(t, e), g))
  {
    EditKeepsResolve(t, e, g.nodes, s);
    EditKeepsResolve(t, e, g.nodes, u);
    RemoveEdgeSees(s, u, k, MapFirst(g.nodes, t, Editing(e)), g);
  }

  lemma {:induction false} AddEdgeRename(s: string, t: string, k: EdgeKind, u: string, v: string, g: GraphValue)
    requires u != s && u != t && v != s && v != t
    ensures Step(AddEdgeByName(s, t, k), Step(RenameNodeByName(u, v), g))
            == Step(RenameNodeByName(u, v), Step(AddEdgeByName(s, t, k), g))
  {
    RenameKeepsResolve(u, v, g.nodes, s);
    RenameKeepsResolve(u, v, g.nodes, t);
    AddEdgeSees(s, t, k, MapFirst(g.nodes, u, Renaming(v)), g);
    AddEdgeKeepsNodes(s, t, k, g);
  }

  lemma {:induction false} SeparateEditsCommute(t: string, e: NodeEdit, q: OpPayload, g: GraphValue)
    requires Separate(EditByName(t, e), q) && !Idle(q) && Valid(g)
    ensures Step(EditByName(t, e), Step(q, g)) == Step(q, Step(EditByName(t, e), g))
  {
    match q
    case EditByName(u, f) => EditEdit(t, e, u, f, g.nodes);
    case CreateNode(n) => FixedAppend(t, Editing(e), n, g.nodes);
    case RemoveNodeByName(u) => EditRemove(t, e, u, g);
    case RenameNodeByName(u, v) => EditRename(t, e, u, v, g.nodes);
    case AddEdgeByName(s, u, k) => EditAddEdge(t, e, s, u, k, g);
    case RemoveEdgeByName(s, u, k) => EditRemoveEdge(t, e, s, u, k, g);
    case _ =>
  }

  lemma {:induction false} SeparateCreationsCommute(n: GraphNode, q: OpPayload, g: GraphValue)
    requires Separate(CreateNode(n), q) && !Idle(q) && Valid(g) && n.id !in Ids(g.nodes)
    ensures Step(CreateNode(n), Step(q, g)) == Step(q, Step(CreateNode(n), g))
  {
    match q
    case RemoveNodeByName(u) => CreateRemove(n, u, g);
    case RenameNodeByName(u, v) => MapAppend(u, Renaming(v), n, g.nodes);
    case AddEdgeByName(s, t, _) =>
      FindNameAppended(g.nodes, n, s);
      FindNameAppended(g.nodes, n, t);
    case RemoveEdgeByName(s, t, k) => CreateRemoveEdge(n, s, t, k, g);
    case _ =>
  }

  /** A rename to itself commutes with everything. */
  lemma {:induction false} RenameToSelfCommutes(u: string, q: OpPayload, g: GraphValue)
    ensures Step(RenameNodeByName(u, u), Step(q, g)) == Step(q, Step(RenameNodeByName(u, u), g))
  {
    RenameToSelf(u, g);
    RenameToSelf(u, Step(q, g));
  }

  lemma {:induction false} SeparateCommute(p: OpPayload, q: OpPayload, g: GraphValue)
    requires Separate(p, q) && Valid(g) && FreshIn(p, g)
    ensures Step(p, Step(q, g)) == Step(q, Step(p, g))
  {
    if Idle(p) {
      RenameToSelfCommutes(p.target, q, g);
    } else if Idle(q) {
      RenameToSelfCommutes(q.target, p, g);
    } else {
      match (p, q)
      case (EditByName(t, e), _) => SeparateEditsCommute(t, e, q, g);
      case (CreateNode(n), _) => SeparateCreationsCommute(n, q, g);
      case (AddEdgeByName(s, t, k), RemoveNodeByName(u)) => AddEdgeRemove(s, t, k, u, g);
      case (AddEdgeByName(s, t, k), RenameNodeByName(u, v)) => AddEdgeRename(s, t, k, u, v, g);
      case (AddEdgeByName(s, t, k), RemoveEdgeByName(s', t', k')) => AddEdgeRemoveEdge(s, t, k, s', t', k', g);
      case (RemoveNodeByName(u), RemoveNodeByName(w)) => if u != w { RemoveRemove(u, w, g); }
      case (RemoveNodeByName(u), RenameNodeByName(w, v)) => RenameRemove(w, v, u, g);
      case (RemoveNodeByName(u), RemoveEdgeByName(s, t, k)) => RemoveRemoveEdge(u, s, t, k, g);
      case (RenameNodeByName(u, v), RenameNodeByName(w, x)) => if p != q { RenameRename(u, v, w, x, g.nodes); }
      case (RenameNodeByName(u, v), RemoveEdgeByName(s, t, k)) => RenameRemoveEdge(u, v, s, t, k, g);
      case (RemoveEdgeByName(s, t, k), RemoveEdgeByName(s', t', k')) => RemoveEdges(s, t, k, s', t', k', g);
      case _ =>
    }
  }

  /** Commuting payloads commute on every valid graph in which a created ref is new. */
  lemma {:induction false} CommutingCommute(p: OpPayload, q: OpPayload, g: GraphValue)
    requires Commuting(p, q) && Valid(g) && FreshIn(p, g) && FreshIn(q, g)
    ensures Step(p, Step(q, g)) == Step(q, Step(p, g))
  {
    if Separate(p, q) {
      SeparateCommute(p, q, g);
    } else {
      SeparateCommute(q, p, g);
    }
  }
}
