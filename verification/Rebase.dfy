/** Payloads by ref: they commute up to the order of nodes and edges when they mention disjoint
    refs, and no payload that finds its target by name does so with all of them. */
module Rebase {
  import opened Base
  import opened Graph
  import opened Payload
  import opened Transaction
  import opened Coordinator
  import opened Commutation
  import opened Clashes

  // ---------------------------------------------------------------- graphs up to order

  /** A graph up to the order of its nodes and edges. */
  datatype Bag = Bag(nodes: map<NodeRef, GraphNode>, edges: multiset<GraphEdge>)

  function IdOf(n: GraphNode): NodeRef {
    n.id
  }

  function BagOf(g: GraphValue): Bag {
    Bag(IndexBy(g.nodes, IdOf), multiset(g.edges))
  }

  // ---------------------------------------------------------------- steps by ref

  /** The payloads that identify what they change by ref. */
  ghost predicate ByRef(p: OpPayload) {
    p.CreateNode? || p.RemoveNode? || p.SetNodeName? || p.AddEdge? || p.Noop?
  }

  /** One step on a bag. */
  ghost function BagStep(p: OpPayload, b: Bag): Bag
    requires ByRef(p)
  {
    match p
    case CreateNode(n) => b.(nodes := b.nodes[n.id := n])
    case RemoveNode(id) => Bag(b.nodes - {id}, FilterBag(b.edges, Avoids(id)))
    case SetNodeName(id, name) => if id in b.nodes then b.(nodes := b.nodes[id := b.nodes[id].(name := name)]) else b
    case AddEdge(e) => b.(edges := multiset{e} + b.edges)
    case Noop => b
  }

  lemma {:induction false} NodesByRef(nodes: seq<GraphNode>)
    ensures IndexBy(nodes, IdOf).Keys == Ids(nodes)
    ensures UniqueIds(nodes) <==> DistinctBy(nodes, IdOf)
  {
    IndexByKeys(nodes, IdOf);
    forall id ensures id in IndexBy(nodes, IdOf) <==> id in Ids(nodes) {
      if id in Ids(nodes) {
        var i :| 0 <= i < |nodes| && nodes[i].id == id;
        assert IdOf(nodes[i]) == id;
      }
      if id in IndexBy(nodes, IdOf) {
        var i :| 0 <= i < |nodes| && IdOf(nodes[i]) == id;
        assert nodes[i].id == id;
      }
    }
    if DistinctBy(nodes, IdOf) {
      forall i, j | 0 <= i < j < |nodes| ensures nodes[i].id != nodes[j].id {
        assert IdOf(nodes[i]) != IdOf(nodes[j]);
      }
    }
  }

  lemma {:induction false} RemoveOnBags(id: NodeRef, g: GraphValue)
    requires UniqueIds(g.nodes)
    ensures BagOf(DropNode(g, id)) == BagStep(RemoveNode(id), BagOf(g))
  {
    NodesByRef(g.nodes);
    IndexByRetained(g.nodes, IdOf, id, OtherId(id));
    RetainAsBag(g.edges, Avoids(id));
  }

  /** A changed node takes the place of its ref. */
  lemma {:induction false} ChangeOnBags(g: GraphValue, i: nat, n: GraphNode)
    requires UniqueIds(g.nodes) && i < |g.nodes| && n.id == g.nodes[i].id
    ensures var b := BagOf(g);
            n.id in b.nodes && b.nodes[n.id] == g.nodes[i]
              && BagOf(g.(nodes := g.nodes[i := n])) == b.(nodes := b.nodes[n.id := n])
  {
    NodesByRef(g.nodes);
    IndexByAt(g.nodes, IdOf, i);
    IndexByUpdated(g.nodes, IdOf, i, n);
  }

  lemma {:induction false} RenameOnBags(id: NodeRef, name: string, g: GraphValue)
    requires UniqueIds(g.nodes)
    ensures BagOf(Step(SetNodeName(id, name), g)) == BagStep(SetNodeName(id, name), BagOf(g))
  {
    NodesByRef(g.nodes);
    match FindId(g.nodes, id)
    case Some(i) => ChangeOnBags(g, i, g.nodes[i].(name := name));
    case None =>
  }

  /** Forgetting the order commutes with taking a step. */
  lemma {:induction false} StepOnBags(p: OpPayload, g: GraphValue)
    requires Valid(g) && ByRef(p)
    ensures BagOf(Step(p, g)) == BagStep(p, BagOf(g))
  {
    match p
    case CreateNode(n) =>
      assert (g.nodes + [n])[..|g.nodes|] == g.nodes;
    case RemoveNode(id) =>
      RemoveOnBags(id, g);
    case SetNodeName(id, name) =>
      RenameOnBags(id, name, g);
    case AddEdge(e) =>
    case Noop =>
  }

  // ---------------------------------------------------------------- commuting on bags

  /** What a ref payload needs of a bag. */
  ghost predicate BagEnabled(p: OpPayload, b: Bag) {
    match p
    case CreateNode(n) => n.id !in b.nodes
    case AddEdge(e) => e.source in b.nodes && e.target in b.nodes
    case _ => true
  }

  lemma {:induction false} BagEnabledIff(p: OpPayload, g: GraphValue)
    ensures BagEnabled(p, BagOf(g)) <==> Enabled(p, g)
  {
    NodesByRef(g.nodes);
  }

  lemma {:induction false} RemoveCommutes(id: NodeRef, q: OpPayload, b: Bag)
    requires ByRef(q) && id !in NodeRefs(q)
    ensures BagStep(RemoveNode(id), BagStep(q, b)) == BagStep(q, BagStep(RemoveNode(id), b))
  {
    match q
    case RemoveNode(id') =>
      FilterBagsCommute(b.edges, Avoids(id), Avoids(id'));
      MinusCommutes(b.nodes, id, id');
    case AddEdge(e) =>
      FilterBagAdd(b.edges, e, Avoids(id));
    case CreateNode(n) =>
      UpdateMinus(b.nodes, id, n.id, n);
    case SetNodeName(id', name) =>
      if id' in b.nodes {
        UpdateMinus(b.nodes, id, id', b.nodes[id'].(name := name));
      }
    case Noop =>
  }

  lemma {:induction false} OthersCommute(p: OpPayload, q: OpPayload, b: Bag)
    requires ByRef(p) && ByRef(q) && NodeRefs(p) !! NodeRefs(q) && !p.RemoveNode? && !q.RemoveNode?
    ensures BagStep(p, BagStep(q, b)) == BagStep(q, BagStep(p, b))
  {
    match (p, q)
    case (CreateNode(n), CreateNode(m)) =>
      assert n.id in NodeRefs(p) && m.id in NodeRefs(q);
      UpdatesCommute(b.nodes, n.id, n, m.id, m);
    case (CreateNode(n), SetNodeName(id, name)) =>
      assert n.id in NodeRefs(p) && id in NodeRefs(q);
      if id in b.nodes { UpdatesCommute(b.nodes, n.id, n, id, b.nodes[id].(name := name)); }
    case (SetNodeName(id, name), CreateNode(n)) =>
      assert id in NodeRefs(p) && n.id in NodeRefs(q);
      if id in b.nodes { UpdatesCommute(b.nodes, n.id, n, id, b.nodes[id].(name := name)); }
    case (SetNodeName(id, name), SetNodeName(id', name')) =>
      assert id in NodeRefs(p) && id' in NodeRefs(q);
      if id in b.nodes && id' in b.nodes {
        UpdatesCommute(b.nodes, id, b.nodes[id].(name := name), id', b.nodes[id'].(name := name'));
      }
    case (AddEdge(e), AddEdge(f)) =>
      assert multiset{e} + (multiset{f} + b.edges) == multiset{f} + (multiset{e} + b.edges);
    case _ =>
  }

  lemma {:induction false} EnabledUnaffected(p: OpPayload, q: OpPayload, b: Bag)
    requires ByRef(p) && ByRef(q) && NodeRefs(p) !! NodeRefs(q)
    ensures BagEnabled(p, BagStep(q, b)) <==> BagEnabled(p, b)
  {
    assert p.CreateNode? ==> p.node.id in NodeRefs(p);
    assert p.AddEdge? ==> p.edge.source in NodeRefs(p) && p.edge.target in NodeRefs(p);
  }

  /** Payloads that mention disjoint refs commute, and neither enables or disables the other. */
  lemma {:induction false} DisjointRefsCommute(p: OpPayload, q: OpPayload, b: Bag)
    requires ByRef(p) && ByRef(q) && NodeRefs(p) !! NodeRefs(q)
    ensures BagStep(p, BagStep(q, b)) == BagStep(q, BagStep(p, b))
    ensures BagEnabled(p, BagStep(q, b)) <==> BagEnabled(p, b)
  {
    EnabledUnaffected(p, q, b);
    if p.RemoveNode? {
      assert p.nodeId in NodeRefs(p);
      RemoveCommutes(p.nodeId, q, b);
    } else if q.RemoveNode? {
      assert q.nodeId in NodeRefs(q);
      RemoveCommutes(q.nodeId, p, b);
    } else {
      OthersCommute(p, q, b);
    }
  }

  ghost function BagFold(ps: seq<OpPayload>, b: Bag): Bag
    requires forall i :: 0 <= i < |ps| ==> ByRef(ps[i])
  {
    if ps == [] then b else BagFold(ps[1..], BagStep(ps[0], b))
  }

  ghost predicate AllByRef(ps: seq<OpPayload>) {
    forall i :: 0 <= i < |ps| ==> ByRef(ps[i])
  }

  /** Every payload of the list finds what it needs when its turn comes. */
  ghost predicate Runs(ps: seq<OpPayload>, b: Bag)
    requires AllByRef(ps)
  {
    ps == [] || (BagEnabled(ps[0], b) && Runs(ps[1..], BagStep(ps[0], b)))
  }

  lemma {:induction false} TailRefs(ps: seq<OpPayload>)
    requires ps != []
    ensures Touched(ps) == NodeRefs(ps[0]) + Touched(ps[1..])
  {
  }

  /** One payload moves past a list that mentions none of its refs. */
  lemma {:induction false} StepPastList(p: OpPayload, qs: seq<OpPayload>, b: Bag)
    requires ByRef(p) && AllByRef(qs) && NodeRefs(p) !! Touched(qs)
    ensures BagFold(qs, BagStep(p, b)) == BagStep(p, BagFold(qs, b))
    ensures Runs(qs, BagStep(p, b)) <==> Runs(qs, b)
    ensures BagEnabled(p, BagFold(qs, b)) <==> BagEnabled(p, b)
    decreases |qs|
  {
    if qs != [] {
      TailRefs(qs);
      DisjointRefsCommute(p, qs[0], b);
      DisjointRefsCommute(qs[0], p, b);
      StepPastList(p, qs[1..], BagStep(qs[0], b));
    }
  }

  /** Two lists that mention disjoint refs can run in either order, to the same bag. */
  lemma {:induction false} ListsCommute(ps: seq<OpPayload>, qs: seq<OpPayload>, b: Bag)
    requires AllByRef(ps) && AllByRef(qs) && Touched(ps) !! Touched(qs)
    ensures BagFold(qs, BagFold(ps, b)) == BagFold(ps, BagFold(qs, b))
    ensures Runs(ps, b) && Runs(qs, BagFold(ps, b)) <==> Runs(qs, b) && Runs(ps, BagFold(qs, b))
    decreases |ps|
  {
    if ps != [] {
      TailRefs(ps);
      StepPastList(ps[0], qs, b);
      ListsCommute(ps[1..], qs, BagStep(ps[0], b));
    }
  }

  /** A list runs on a valid graph exactly when all its payloads are enabled in turn, and the
      bag it reaches is the bag of the graph it reaches. */
  lemma {:induction false} FoldOnBags(ps: seq<OpPayload>, g: GraphValue)
    requires Valid(g) && AllByRef(ps)
    ensures Runs(ps, BagOf(g)) <==> AllEnabled(ps, g)
    ensures AllEnabled(ps, g) ==> BagOf(Fold(ps, g)) == BagFold(ps, BagOf(g)) && Valid(Fold(ps, g))
    decreases |ps|
  {
    if ps != [] {
      BagEnabledIff(ps[0], g);
      assert ps[..0] == [];
      if Enabled(ps[0], g) {
        StepOnBags(ps[0], g);
        StepValid(ps[0], g);
        FoldOnBags(ps[1..], Step(ps[0], g));
        EnabledTail(ps, g);
      } else {
        assert !Enabled(ps[0], Fold(ps[..0], g));
      }
    }
  }

  lemma {:induction false} EnabledTail(ps: seq<OpPayload>, g: GraphValue)
    requires ps != [] && Enabled(ps[0], g)
    ensures AllEnabled(ps, g) <==> AllEnabled(ps[1..], Step(ps[0], g))
  {
    assert ps[..0] == [];
    forall k | 0 < k < |ps|
      ensures Enabled(ps[k], Fold(ps[..k], g)) <==> Enabled(ps[1..][k - 1], Fold(ps[1..][..k - 1], Step(ps[0], g)))
    {
      assert ps[..k][1..] == ps[1..][..k - 1];
    }
    if AllEnabled(ps, g) {
      forall k | 0 <= k < |ps[1..]| ensures Enabled(ps[1..][k], Fold(ps[1..][..k], Step(ps[0], g))) {
        assert Enabled(ps[k + 1], Fold(ps[..k + 1], g));
      }
    }
  }

  /** Lists of payloads by ref: if the second runs after the first and they mention disjoint
      refs, they also run in the other order, to the same graph up to order. */
  lemma {:induction false} RefListsSerialise(first: seq<OpPayload>, second: seq<OpPayload>, g: GraphValue)
    requires Valid(g) && AllByRef(first) && AllByRef(second) && Touched(first) !! Touched(second)
    requires AllEnabled(first, g) && AllEnabled(second, Fold(first, g))
    ensures AllEnabled(second, g) && AllEnabled(first, Fold(second, g))
    ensures BagOf(Fold(second, Fold(first, g))) == BagOf(Fold(first, Fold(second, g)))
  {
    FoldOnBags(first, g);
    FoldOnBags(second, Fold(first, g));
    ListsCommute(first, second, BagOf(g));
    FoldOnBags(second, g);
    FoldOnBags(first, Fold(second, g));
  }

  // ---------------------------------------------------------------- what disjoint refs protect

  /** Up to order, the order of `p` and `q` does not matter on `g`. */
  ghost predicate SwapsOn(p: OpPayload, q: OpPayload, g: GraphValue) {
    BagOf(Step(p, Step(q, g))) == BagOf(Step(q, Step(p, g)))
  }

  lemma {:induction false} RefsSwap(p: OpPayload, q: OpPayload, g: GraphValue)
    requires ByRef(p) && ByRef(q) && NodeRefs(p) !! NodeRefs(q) && Valid(g) && Enabled(p, g) && Enabled(q, g)
    ensures SwapsOn(p, q, g)
  {
    StepValid(p, g);
    StepValid(q, g);
    StepOnBags(p, g);
    StepOnBags(q, g);
    StepOnBags(p, Step(q, g));
    StepOnBags(q, Step(p, g));
    DisjointRefsCommute(p, q, BagOf(g));
  }

  /** Two nodes of one name, the second of which `p` would change. */
  function Twins(u: string, second: GraphNode): GraphValue {
    GraphValue([Plain(0, u), second], [])
  }

  /** After the first twin is gone, only the second is left, and the step meets it. */
  lemma {:induction false} TwinsTell(p: OpPayload, u: string, second: GraphNode)
    requires second.name == u && second.id == 1
    requires p.RemoveNodeByName? || p.RenameNodeByName? || p.EditByName?
    requires p.target == u && Step(p, GraphValue([second], [])).nodes != [second]
    ensures Valid(Twins(u, second)) && !SwapsOn(p, RemoveNode(0), Twins(u, second))
  {
    var g := Twins(u, second);
    var first := Plain(0, u);
    FoundAt(g.nodes, 0);
    DropFirst(g);
    assert g.nodes[1..] == [second];
    assert Step(RemoveNode(0), g) == GraphValue([second], []);
    if p.RemoveNodeByName? {
      assert Step(p, g) == GraphValue([second], []);
      SingleKept(second, 0);
    } else {
      var changed := if p.EditByName? then EditNode(p.edit, first) else first.(name := p.newName);
      assert Step(p, g) == GraphValue([changed, second], []);
      DropFirst(Step(p, g));
      assert [changed, second][1..] == [second];
    }
    assert Step(RemoveNode(0), Step(p, g)) == GraphValue([second], []);
    SinglesDiffer(second, Step(p, GraphValue([second], [])));
  }

  lemma {:induction false} SingleKept(n: GraphNode, id: NodeRef)
    requires n.id != id
    ensures DropNode(GraphValue([n], []), id) == GraphValue([n], [])
  {
  }

  lemma {:induction false} SinglesDiffer(n: GraphNode, h: GraphValue)
    requires h.nodes != [n] && |h.nodes| <= 1
    ensures BagOf(h) != BagOf(GraphValue([n], []))
  {
    IndexByAt([n], IdOf, 0);
    assert n.id in BagOf(GraphValue([n], [])).nodes;
    if |h.nodes| == 1 {
      assert h.nodes == [h.nodes[0]];
      IndexByAt(h.nodes, IdOf, 0);
      IndexByKeys(h.nodes, IdOf);
      IndexByKeys([n], IdOf);
    }
  }

  /** A payload that finds its target by name, and does something there, does not commute with
      the removal of a ref it does not mention. */
  lemma {:induction false} NameMeetsRef(p: OpPayload) returns (g: GraphValue)
    requires !ByRef(p) && !Idle(p)
    ensures Valid(g) && !SwapsOn(p, RemoveNode(0), g)
  {
    match p
    case EditByName(u, e) =>
      var second := Stirred(e, 1, u);
      g := Twins(u, second);
      FoundAt([second], 0);
      assert Step(p, GraphValue([second], [])).nodes[0] == EditNode(e, second);
      TwinsTell(p, u, second);
    case RemoveNodeByName(u) =>
      var second := Plain(1, u);
      g := Twins(u, second);
      FoundAt([second], 0);
      DropFirst(GraphValue([second], []));
      TwinsTell(p, u, second);
    case RenameNodeByName(u, v) =>
      var second := Plain(1, u);
      g := Twins(u, second);
      FoundAt([second], 0);
      assert Step(p, GraphValue([second], [])).nodes[0] == second.(name := v);
      TwinsTell(p, u, second);
    case AddEdgeByName(s, t, k) =>
      g := GraphValue(Doubled(s, s, t), []);
      FoundAt(g.nodes, 0);
      RemoveResolved(s, 0, g);
      AddEdgeKeepsNodes(s, t, k, g);
      RemoveResolved(s, 0, Step(p, g));
      AddedEdgeGoes(s, s, t, k, g);
      AddedEdgeStays(s, s, t, k, g);
    case RemoveEdgeByName(s, t, k) =>
      g := KeptEdge(s, t, k);
  }

  lemma {:induction false} KeptEdge(s: string, t: string, k: EdgeKind) returns (g: GraphValue)
    ensures Valid(g) && !SwapsOn(RemoveEdgeByName(s, t, k), RemoveNode(0), g)
  {
    var e;
    g, e := LaterEdge(s, s, t, k);
    FoundAt(g.nodes, 0);
    RemoveResolved(s, 0, g);
    RemoveEdgeKeepsNodes(s, t, k, g);
    RemoveResolved(s, 0, Step(RemoveEdgeByName(s, t, k), g));
    assert e in multiset([e]);
  }

  /** The exact class: a payload commutes, up to order, with every payload by ref of disjoint refs
      if and only if it is itself by ref or a rename to the same name. */
  lemma {:induction false} RefClassExact(p: OpPayload)
    ensures ByRef(p) || Idle(p) <==>
              forall q, g :: ByRef(q) && NodeRefs(p) !! NodeRefs(q) && Valid(g) && Enabled(p, g) && Enabled(q, g)
                ==> SwapsOn(p, q, g)
  {
    if ByRef(p) {
      forall q, g | ByRef(q) && NodeRefs(p) !! NodeRefs(q) && Valid(g) && Enabled(p, g) && Enabled(q, g)
        ensures SwapsOn(p, q, g)
      {
        RefsSwap(p, q, g);
      }
    } else if Idle(p) {
      forall q, g ensures SwapsOn(p, q, g) {
        RenameToSelfCommutes(p.target, q, g);
      }
    } else {
      var g := NameMeetsRef(p);
      assert !SwapsOn(p, RemoveNode(0), g);
    }
  }
}
