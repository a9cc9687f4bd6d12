/** When two concurrent change sets can be committed in either order, for lists that mix payloads
    by ref and by name; and that the coordinator's conflict check does not see the rest. */
module Serialisation {
  import opened Base
  import opened Graph
  import opened Payload
  import opened Transaction
  import opened Coordinator
  import opened Commutation
  import opened Clashes
  import opened Rebase

  // ---------------------------------------------------------------- graphs up to the order that names see

  /** A partition of the names in use: two names of one class may come to stand for one another,
      names without a class are never looked up. */
  type Classes = string -> Option<string>

  function InClass(f: Classes, c: string): GraphNode -> bool {
    (n: GraphNode) => f(n.name) == Some(c)
  }

  function Members(nodes: seq<GraphNode>, f: Classes, c: string): seq<GraphNode> {
    Retain(nodes, InClass(f, c))
  }

  /** Equal up to the order of the edges, and of nodes whose names lie in different classes. */
  ghost predicate Alike(g: GraphValue, h: GraphValue, f: Classes) {
    BagOf(g) == BagOf(h) && forall c :: Members(g.nodes, f, c) == Members(h.nodes, f, c)
  }

  /** The payload looks up and renames within classes. */
  ghost predicate Within(p: OpPayload, f: Classes) {
    match p
    case SetNodeName(_, _) => forall x, y :: f(x) == f(y)
    case RemoveNodeByName(u) => f(u).Some?
    case RenameNodeByName(u, v) => f(u).Some? && f(u) == f(v)
    case AddEdgeByName(s, t, _) => f(s).Some? && f(t).Some?
    case RemoveEdgeByName(s, t, _) => f(s).Some? && f(t).Some?
    case EditByName(t, _) => f(t).Some?
    case _ => true
  }

  ghost predicate AllWithin(ps: seq<OpPayload>, f: Classes) {
    forall i :: 0 <= i < |ps| ==> Within(ps[i], f)
  }

  lemma {:induction false} ResolveCons(nodes: seq<GraphNode>, x: string)
    requires nodes != []
    ensures Resolve(nodes, x) == if nodes[0].name == x then Some(nodes[0].id) else Resolve(nodes[1..], x)
  {
  }

  lemma {:induction false} ResolveRetained(nodes: seq<GraphNode>, keep: GraphNode -> bool, x: string)
    requires forall n: GraphNode :: n.name == x ==> keep(n)
    ensures Resolve(Retain(nodes, keep), x) == Resolve(nodes, x)
  {
    if nodes != [] {
      ResolveRetained(nodes[1..], keep, x);
      ResolveCons(nodes, x);
      if keep(nodes[0]) {
        var kept := Retain(nodes, keep);
        assert kept[1..] == Retain(nodes[1..], keep);
        ResolveCons(kept, x);
      }
    }
  }

  /** Alike graphs find the same node under every name of a class. */
  lemma {:induction false} AlikeResolve(g: GraphValue, h: GraphValue, f: Classes, x: string)
    requires Alike(g, h, f) && f(x).Some?
    ensures Resolve(g.nodes, x) == Resolve(h.nodes, x)
  {
    ResolveRetained(g.nodes, InClass(f, f(x).value), x);
    ResolveRetained(h.nodes, InClass(f, f(x).value), x);
    assert Members(g.nodes, f, f(x).value) == Members(h.nodes, f, f(x).value);
  }

  // ---------------------------------------------------------------- steps respect likeness: the bag

  /** The payload by ref that does the same, once the name is resolved. */
  function ByRefAt(p: OpPayload, nodes: seq<GraphNode>): OpPayload {
    match p
    case RemoveNodeByName(u) =>
      (match Resolve(nodes, u)
       case Some(id) => RemoveNode(id)
       case None => Noop)
    case RenameNodeByName(u, v) =>
      (match Resolve(nodes, u)
       case Some(id) => SetNodeName(id, v)
       case None => Noop)
    case AddEdgeByName(s, t, k) =>
      (match (Resolve(nodes, s), Resolve(nodes, t))
       case (Some(a), Some(b)) => AddEdge(NewEdge(a, b, k))
       case _ => Noop)
    case _ => p
  }

  lemma {:induction false} StepByRefAt(p: OpPayload, g: GraphValue)
    requires UniqueIds(g.nodes)
    ensures Step(p, g) == Step(ByRefAt(p, g.nodes), g)
  {
    if p.RenameNodeByName? && Resolve(g.nodes, p.target).Some? {
      var i := FindName(g.nodes, p.target).value;
      assert FindId(g.nodes, g.nodes[i].id) == Some(i);
    }
  }

  lemma {:induction false} EditOnBags(t: string, e: NodeEdit, id: NodeRef, g: GraphValue)
    requires UniqueIds(g.nodes) && Resolve(g.nodes, t) == Some(id)
    ensures var b := BagOf(g);
            id in b.nodes && BagOf(Step(EditByName(t, e), g)) == b.(nodes := b.nodes[id := EditNode(e, b.nodes[id])])
  {
    var i := FindName(g.nodes, t).value;
    ChangeOnBags(g, i, EditNode(e, g.nodes[i]));
  }

  lemma {:induction false} RemoveEdgeOnBags(s: string, t: string, k: EdgeKind, g: GraphValue)
    ensures var b := BagOf(g);
            BagOf(Step(RemoveEdgeByName(s, t, k), g))
            == match (Resolve(g.nodes, s), Resolve(g.nodes, t))
               case (Some(x), Some(y)) => b.(edges := FilterBag(b.edges, OtherThan(x, y, k)))
               case _ => b
  {
    match (Resolve(g.nodes, s), Resolve(g.nodes, t))
    case (Some(x), Some(y)) =>
      RemoveEdgeResolved(s, t, k, x, y, g);
      RetainAsBag(g.edges, OtherThan(x, y, k));
    case _ =>
      RemoveEdgeUnresolved(s, t, k, g);
  }

  lemma {:induction false} SameByRefAt(p: OpPayload, g: GraphValue, h: GraphValue, f: Classes)
    requires Within(p, f) && Alike(g, h, f)
    ensures ByRefAt(p, g.nodes) == ByRefAt(p, h.nodes)
  {
    match p
    case RemoveNodeByName(u) => AlikeResolve(g, h, f, u);
    case RenameNodeByName(u, _) => AlikeResolve(g, h, f, u);
    case AddEdgeByName(s, t, _) =>
      AlikeResolve(g, h, f, s);
      AlikeResolve(g, h, f, t);
    case _ =>
  }

  lemma {:induction false} AlikeBags(p: OpPayload, g: GraphValue, h: GraphValue, f: Classes)
    requires Valid(g) && Valid(h) && Within(p, f) && Alike(g, h, f)
    ensures BagOf(Step(p, g)) == BagOf(Step(p, h))
  {
    match p
    case EditByName(t, e) =>
      AlikeResolve(g, h, f, t);
      if Resolve(g.nodes, t).Some? {
        EditOnBags(t, e, Resolve(g.nodes, t).value, g);
        EditOnBags(t, e, Resolve(g.nodes, t).value, h);
      }
    case RemoveEdgeByName(s, t, k) =>
      AlikeResolve(g, h, f, s);
      AlikeResolve(g, h, f, t);
      RemoveEdgeOnBags(s, t, k, g);
      RemoveEdgeOnBags(s, t, k, h);
    case _ =>
      var q := ByRefAt(p, g.nodes);
      SameByRefAt(p, g, h, f);
      StepByRefAt(p, g);
      StepByRefAt(p, h);
      StepOnBags(q, g);
      StepOnBags(q, h);
  }

  // ---------------------------------------------------------------- steps respect likeness: the classes

  lemma {:induction false} MapFirstCons(nodes: seq<GraphNode>, u: string, h: GraphNode -> GraphNode)
    requires nodes != []
    ensures MapFirst(nodes, u, h)
            == if nodes[0].name == u then [h(nodes[0])] + nodes[1..] else [nodes[0]] + MapFirst(nodes[1..], u, h)
  {
  }

  /** A change at a name that the filter keeps can be made before or after filtering. */
  lemma {:induction false} RetainMapped(nodes: seq<GraphNode>, keep: GraphNode -> bool, u: string,
                                        h: GraphNode -> GraphNode)
    requires forall n: GraphNode :: n.name == u ==> keep(n) && keep(h(n))
    ensures Retain(MapFirst(nodes, u, h), keep) == MapFirst(Retain(nodes, keep), u, h)
  {
    if nodes != [] {
      MapFirstCons(nodes, u, h);
      var rest := nodes[1..];
      var mapped := MapFirst(nodes, u, h);
      assert mapped[1..] == if nodes[0].name == u then rest else MapFirst(rest, u, h);
      RetainMapped(rest, keep, u, h);
      if keep(nodes[0]) {
        var kept := Retain(nodes, keep);
        assert kept[1..] == Retain(rest, keep);
        MapFirstCons(kept, u, h);
      }
    }
  }

  /** A change at a name that the filter drops, to a node it drops too, does not show. */
  lemma {:induction false} RetainUnmapped(nodes: seq<GraphNode>, keep: GraphNode -> bool, u: string,
                                          h: GraphNode -> GraphNode)
    requires forall n: GraphNode :: n.name == u ==> !keep(n) && !keep(h(n))
    ensures Retain(MapFirst(nodes, u, h), keep) == Retain(nodes, keep)
  {
    if nodes != [] {
      MapFirstCons(nodes, u, h);
      var rest := nodes[1..];
      var mapped := MapFirst(nodes, u, h);
      assert mapped[1..] == if nodes[0].name == u then rest else MapFirst(rest, u, h);
      RetainUnmapped(rest, keep, u, h);
    }
  }

  lemma {:induction false} AlikeMapped(a: seq<GraphNode>, b: seq<GraphNode>, f: Classes, c: string, u: string,
                                       h: GraphNode -> GraphNode)
    requires Members(a, f, c) == Members(b, f, c) && f(u).Some?
    requires forall n: GraphNode :: n.name == u ==> f(h(n).name) == f(u)
    ensures Members(MapFirst(a, u, h), f, c) == Members(MapFirst(b, u, h), f, c)
  {
    if f(u).value == c {
      RetainMapped(a, InClass(f, c), u, h);
      RetainMapped(b, InClass(f, c), u, h);
    } else {
      RetainUnmapped(a, InClass(f, c), u, h);
      RetainUnmapped(b, InClass(f, c), u, h);
    }
  }

  lemma {:induction false} AlikeDropped(a: seq<GraphNode>, b: seq<GraphNode>, f: Classes, c: string, id: NodeRef)
    requires Members(a, f, c) == Members(b, f, c)
    ensures Members(Retain(a, OtherId(id)), f, c) == Members(Retain(b, OtherId(id)), f, c)
  {
    RetainCommutes(a, OtherId(id), InClass(f, c));
    RetainCommutes(b, OtherId(id), InClass(f, c));
  }

  /** With a single class for all names the nodes are in the same order. */
  lemma {:induction false} AlikeOneClass(a: seq<GraphNode>, b: seq<GraphNode>, f: Classes, c: string)
    requires (forall x, y :: f(x) == f(y)) && Members(a, f, c) == Members(b, f, c)
    ensures f("") == Some(c) ==> a == b
    ensures f("") != Some(c) ==> forall s :: Members(s, f, c) == []
  {
    assert forall n: GraphNode :: f(n.name) == f("");
    if f("") == Some(c) {
      RetainAll(a, InClass(f, c));
      RetainAll(b, InClass(f, c));
    } else {
      forall s ensures Members(s, f, c) == [] {
        RetainNone(s, InClass(f, c));
      }
    }
  }

  lemma {:induction false} AlikeMembers(p: OpPayload, g: GraphValue, h: GraphValue, f: Classes, c: string)
    requires Within(p, f) && Alike(g, h, f)
    ensures Members(Step(p, g).nodes, f, c) == Members(Step(p, h).nodes, f, c)
  {
    assert Members(g.nodes, f, c) == Members(h.nodes, f, c);
    match p
    case CreateNode(n) =>
      RetainConcat(g.nodes, [n], InClass(f, c));
      RetainConcat(h.nodes, [n], InClass(f, c));
    case RemoveNode(id) =>
      AlikeDropped(g.nodes, h.nodes, f, c, id);
    case SetNodeName(id, name) =>
      AlikeOneClass(g.nodes, h.nodes, f, c);
    case RemoveNodeByName(u) =>
      AlikeResolve(g, h, f, u);
      if Resolve(g.nodes, u).Some? {
        AlikeDropped(g.nodes, h.nodes, f, c, Resolve(g.nodes, u).value);
      }
    case RenameNodeByName(u, v) =>
      AlikeMapped(g.nodes, h.nodes, f, c, u, Renaming(v));
    case EditByName(t, e) =>
      AlikeMapped(g.nodes, h.nodes, f, c, t, Editing(e));
    case _ =>
  }

  /** Likeness is kept by every step within the classes, and alike graphs enable the same payloads. */
  lemma {:induction false} AlikeStep(p: OpPayload, g: GraphValue, h: GraphValue, f: Classes)
    requires Valid(g) && Valid(h) && Within(p, f) && Alike(g, h, f)
    ensures Alike(Step(p, g), Step(p, h), f)
    ensures Enabled(p, g) <==> Enabled(p, h)
  {
    AlikeBags(p, g, h, f);
    forall c ensures Members(Step(p, g).nodes, f, c) == Members(Step(p, h).nodes, f, c) {
      AlikeMembers(p, g, h, f, c);
    }
    BagEnabledIff(p, g);
    BagEnabledIff(p, h);
  }

  // ---------------------------------------------------------------- pairs

  /** `p` and `q` of two concurrent change sets do not get into each other's way: creations of
      different refs under names of different classes, payloads by ref that mention disjoint refs,
      or payloads that commute. */
  ghost predicate Harmonious(p: OpPayload, q: OpPayload, f: Classes) {
    if p.CreateNode? && q.CreateNode? then
      p.node.id != q.node.id && (f(p.node.name).None? || f(p.node.name) != f(q.node.name))
    else
      Commuting(p, q) || (ByRef(p) && ByRef(q) && NodeRefs(p) !! NodeRefs(q))
  }

  /** Renaming by ref, as a change of every node. */
  function NamedById(nodes: seq<GraphNode>, id: NodeRef, name: string): seq<GraphNode> {
    if nodes == [] then []
    else [if nodes[0].id == id then nodes[0].(name := name) else nodes[0]] + NamedById(nodes[1..], id, name)
  }

  lemma {:induction false} NamedByIdAt(nodes: seq<GraphNode>, id: NodeRef, name: string)
    ensures var r := NamedById(nodes, id, name);
            |r| == |nodes| && forall i :: 0 <= i < |nodes| ==>
              r[i] == if nodes[i].id == id then nodes[i].(name := name) else nodes[i]
  {
    if nodes != [] {
      NamedByIdAt(nodes[1..], id, name);
    }
  }

  lemma {:induction false} SetNodeNameIs(id: NodeRef, name: string, g: GraphValue)
    requires UniqueIds(g.nodes)
    ensures Step(SetNodeName(id, name), g) == g.(nodes := NamedById(g.nodes, id, name))
  {
    NamedByIdAt(g.nodes, id, name);
  }

  lemma {:induction false} NamedDropped(nodes: seq<GraphNode>, id: NodeRef, name: string, other: NodeRef)
    ensures NamedById(Retain(nodes, OtherId(other)), id, name) == Retain(NamedById(nodes, id, name), OtherId(other))
  {
    if nodes != [] {
      var rest := nodes[1..];
      NamedDropped(rest, id, name, other);
      var named := NamedById(nodes, id, name);
      assert named[1..] == NamedById(rest, id, name);
      if nodes[0].id != other {
        assert Retain(nodes, OtherId(other))[1..] == Retain(rest, OtherId(other));
      }
    }
  }

  lemma {:induction false} NamedTwice(nodes: seq<GraphNode>, id: NodeRef, name: string, id': NodeRef, name': string)
    requires id != id'
    ensures NamedById(NamedById(nodes, id, name), id', name') == NamedById(NamedById(nodes, id', name'), id, name)
  {
    NamedByIdAt(nodes, id, name);
    NamedByIdAt(nodes, id', name');
    NamedByIdAt(NamedById(nodes, id, name), id', name');
    NamedByIdAt(NamedById(nodes, id', name'), id, name);
  }

  lemma {:induction false} NamedAppended(nodes: seq<GraphNode>, n: GraphNode, id: NodeRef, name: string)
    requires n.id != id
    ensures NamedById(nodes + [n], id, name) == NamedById(nodes, id, name) + [n]
  {
    NamedByIdAt(nodes + [n], id, name);
    NamedByIdAt(nodes, id, name);
  }

  lemma {:induction false} NamingMeets(id: NodeRef, name: string, q: OpPayload, g: GraphValue)
    requires ByRef(q) && id !in NodeRefs(q) && Valid(g) && Enabled(q, g)
    ensures Step(SetNodeName(id, name), Step(q, g)).nodes == Step(q, Step(SetNodeName(id, name), g)).nodes
  {
    StepValid(q, g);
    StepValid(SetNodeName(id, name), g);
    SetNodeNameIs(id, name, g);
    SetNodeNameIs(id, name, Step(q, g));
    match q
    case CreateNode(n) => NamedAppended(g.nodes, n, id, name);
    case RemoveNode(other) => NamedDropped(g.nodes, id, name, other);
    case SetNodeName(id', name') =>
      SetNodeNameIs(id', name', g);
      SetNodeNameIs(id', name', Step(SetNodeName(id, name), g));
      NamedTwice(g.nodes, id, name, id', name');
    case _ =>
  }

  lemma {:induction false} RemovalMeets(id: NodeRef, q: OpPayload, g: GraphValue)
    requires ByRef(q) && !q.SetNodeName? && id !in NodeRefs(q)
    ensures Step(RemoveNode(id), Step(q, g)).nodes == Step(q, Step(RemoveNode(id), g)).nodes
  {
    match q
    case CreateNode(n) =>
      RetainConcat(g.nodes, [n], OtherId(id));
      assert Retain([n], OtherId(id)) == [n];
    case RemoveNode(other) => RetainCommutes(g.nodes, OtherId(id), OtherId(other));
    case _ =>
  }

  /** Payloads by ref with disjoint refs leave even the nodes in the same order, unless both create. */
  lemma {:induction false} RefsKeepNodeOrder(p: OpPayload, q: OpPayload, g: GraphValue)
    requires ByRef(p) && ByRef(q) && NodeRefs(p) !! NodeRefs(q) && !(p.CreateNode? && q.CreateNode?)
    requires Valid(g) && Enabled(p, g) && Enabled(q, g)
    ensures Step(p, Step(q, g)).nodes == Step(q, Step(p, g)).nodes
  {
    assert p.SetNodeName? || p.RemoveNode? ==> p.nodeId in NodeRefs(p);
    assert q.SetNodeName? || q.RemoveNode? ==> q.nodeId in NodeRefs(q);
    if p.SetNodeName? {
      NamingMeets(p.nodeId, p.newName, q, g);
    } else if q.SetNodeName? {
      NamingMeets(q.nodeId, q.newName, p, g);
    } else if p.RemoveNode? {
      RemovalMeets(p.nodeId, q, g);
    } else if q.RemoveNode? {
      RemovalMeets(q.nodeId, p, g);
    }
  }

  lemma {:induction false} CreationsMeet(n: GraphNode, m: GraphNode, g: GraphValue, f: Classes)
    requires Harmonious(CreateNode(n), CreateNode(m), f) && Valid(g) && n.id !in Ids(g.nodes) && m.id !in Ids(g.nodes)
    ensures Alike(Step(CreateNode(n), Step(CreateNode(m), g)), Step(CreateNode(m), Step(CreateNode(n), g)), f)
  {
    RefsSwap(CreateNode(n), CreateNode(m), g);
    var a, b := g.nodes + [m] + [n], g.nodes + [n] + [m];
    forall c ensures Members(a, f, c) == Members(b, f, c) {
      RetainConcat(g.nodes + [m], [n], InClass(f, c));
      RetainConcat(g.nodes, [m], InClass(f, c));
      RetainConcat(g.nodes + [n], [m], InClass(f, c));
      RetainConcat(g.nodes, [n], InClass(f, c));
    }
  }

  lemma {:induction false} EnabledAfter(p: OpPayload, q: OpPayload, g: GraphValue, f: Classes)
    requires Harmonious(p, q, f) && Valid(g) && Enabled(p, g) && Enabled(q, g)
    ensures Enabled(p, Step(q, g))
  {
    StepIds(q, g);
    if p.AddEdge? {
      if Commuting(p, q) {
        assert q.Noop?;
      } else {
        BagEnabledIff(p, g);
        BagEnabledIff(p, Step(q, g));
        StepOnBags(q, g);
        DisjointRefsCommute(p, q, BagOf(g));
      }
    }
  }

  lemma {:induction false} HarmoniousSym(p: OpPayload, q: OpPayload, f: Classes)
    requires Harmonious(p, q, f)
    ensures Harmonious(q, p, f)
  {
  }

  /** Two harmonious payloads can change places. */
  lemma {:induction false} Diamond(p: OpPayload, q: OpPayload, g: GraphValue, f: Classes)
    requires Harmonious(p, q, f) && Valid(g) && Enabled(p, g) && Enabled(q, g)
    ensures Enabled(p, Step(q, g)) && Enabled(q, Step(p, g))
    ensures Alike(Step(p, Step(q, g)), Step(q, Step(p, g)), f)
  {
    EnabledAfter(p, q, g, f);
    HarmoniousSym(p, q, f);
    EnabledAfter(q, p, g, f);
    if p.CreateNode? && q.CreateNode? {
      CreationsMeet(p.node, q.node, g, f);
    } else if Commuting(p, q) {
      CommutingCommute(p, q, g);
    } else {
      RefsSwap(p, q, g);
      RefsKeepNodeOrder(p, q, g);
    }
  }

  // ---------------------------------------------------------------- lists

  ghost predicate AllHarmonious(ps: seq<OpPayload>, qs: seq<OpPayload>, f: Classes) {
    forall i, j :: 0 <= i < |ps| && 0 <= j < |qs| ==> Harmonious(ps[i], qs[j], f)
  }

  lemma {:induction false} AlikeFold(ps: seq<OpPayload>, g: GraphValue, h: GraphValue, f: Classes)
    requires Valid(g) && Valid(h) && AllWithin(ps, f) && Alike(g, h, f) && AllEnabled(ps, g)
    ensures AllEnabled(ps, h) && Alike(Fold(ps, g), Fold(ps, h), f) && Valid(Fold(ps, g)) && Valid(Fold(ps, h))
    decreases |ps|
  {
    if ps != [] {
      assert ps[..0] == [] && Enabled(ps[0], Fold(ps[..0], g));
      AlikeStep(ps[0], g, h, f);
      StepValid(ps[0], g);
      StepValid(ps[0], h);
      EnabledTail(ps, g);
      AlikeFold(ps[1..], Step(ps[0], g), Step(ps[0], h), f);
      EnabledTail(ps, h);
    }
  }

  lemma {:induction false} AlikeTrans(a: GraphValue, b: GraphValue, c: GraphValue, f: Classes)
    requires Alike(a, b, f) && Alike(b, c, f)
    ensures Alike(a, c, f)
  {
    forall x ensures Members(a.nodes, f, x) == Members(c.nodes, f, x) {
      assert Members(a.nodes, f, x) == Members(b.nodes, f, x);
    }
  }

  /** One payload moves past a list it is harmonious with. */
  lemma {:induction false} PastList(p: OpPayload, qs: seq<OpPayload>, g: GraphValue, f: Classes)
    requires Valid(g) && Within(p, f) && AllWithin(qs, f) && Enabled(p, g) && AllEnabled(qs, g)
    requires forall j :: 0 <= j < |qs| ==> Harmonious(p, qs[j], f)
    ensures AllEnabled(qs, Step(p, g)) && Enabled(p, Fold(qs, g)) && Valid(Fold(qs, g))
    ensures Alike(Fold(qs, Step(p, g)), Step(p, Fold(qs, g)), f)
    decreases |qs|
  {
    if qs != [] {
      var q, rest := qs[0], qs[1..];
      assert qs[..0] == [] && Enabled(q, Fold(qs[..0], g));
      EnabledTail(qs, g);
      StepValid(q, g);
      StepValid(p, g);
      Diamond(p, q, g, f);
      PastList(p, rest, Step(q, g), f);
      StepValid(p, Step(q, g));
      StepValid(q, Step(p, g));
      AlikeFold(rest, Step(p, Step(q, g)), Step(q, Step(p, g)), f);
      EnabledTail(qs, Step(p, g));
      AlikeTransBack(Fold(rest, Step(q, Step(p, g))), Fold(rest, Step(p, Step(q, g))), Step(p, Fold(qs, g)), f);
    }
  }

  lemma {:induction false} AlikeTransBack(a: GraphValue, b: GraphValue, c: GraphValue, f: Classes)
    requires Alike(b, a, f) && Alike(b, c, f)
    ensures Alike(a, c, f)
  {
    forall x ensures Members(a.nodes, f, x) == Members(c.nodes, f, x) {
      assert Members(b.nodes, f, x) == Members(a.nodes, f, x);
      assert Members(b.nodes, f, x) == Members(c.nodes, f, x);
    }
  }

  /** Rebase is sound for harmonious change sets: two lists that each apply to the common base
      also apply after one another, in either order, and the two results are alike. */
  lemma {:induction false} RebaseSerialises(first: seq<OpPayload>, second: seq<OpPayload>, g: GraphValue, f: Classes)
    requires Valid(g) && AllWithin(first, f) && AllWithin(second, f) && AllHarmonious(first, second, f)
    requires AllEnabled(first, g) && AllEnabled(second, g)
    ensures AllEnabled(second, Fold(first, g)) && AllEnabled(first, Fold(second, g))
    ensures Alike(Fold(second, Fold(first, g)), Fold(first, Fold(second, g)), f)
    decreases |first|
  {
    if first == [] {
      assert AllEnabled(first, Fold(second, g));
    } else {
      var p, rest := first[0], first[1..];
      assert first[..0] == [] && Enabled(p, Fold(first[..0], g));
      EnabledTail(first, g);
      StepValid(p, g);
      PastList(p, second, g, f);
      RebaseSerialises(rest, second, Step(p, g), f);
      SerialTail(p, rest, second, g, f);
      EnabledTail(first, Fold(second, g));
      AlikeTrans(Fold(second, Fold(first, g)), Fold(rest, Fold(second, Step(p, g))), Fold(first, Fold(second, g)), f);
    }
  }

  lemma {:induction false} SerialTail(p: OpPayload, rest: seq<OpPayload>, second: seq<OpPayload>, g: GraphValue,
                                      f: Classes)
    requires Valid(Step(p, g)) && AllWithin(rest, f) && AllEnabled(second, Step(p, g))
    requires Enabled(p, Fold(second, g)) && Valid(Fold(second, g)) && AllEnabled(rest, Fold(second, Step(p, g)))
    requires Alike(Fold(second, Step(p, g)), Step(p, Fold(second, g)), f)
    ensures AllEnabled(rest, Step(p, Fold(second, g)))
    ensures Alike(Fold(rest, Fold(second, Step(p, g))), Fold(rest, Step(p, Fold(second, g))), f)
  {
    FoldValid(second, Step(p, g));
    StepValid(p, Fold(second, g));
    AlikeFold(rest, Fold(second, Step(p, g)), Step(p, Fold(second, g)), f);
  }

  lemma {:induction false} FoldValid(ps: seq<OpPayload>, g: GraphValue)
    requires Valid(g) && AllEnabled(ps, g)
    ensures Valid(Fold(ps, g))
    decreases |ps|
  {
    if ps != [] {
      assert ps[..0] == [] && Enabled(ps[0], Fold(ps[..0], g));
      StepValid(ps[0], g);
      EnabledTail(ps, g);
      FoldValid(ps[1..], Step(ps[0], g));
    }
  }

  /** Change sets from documents that rename nothing: it is enough that their creations differ in
      ref and in name, and that all other pairs commute. */
  lemma {:induction false} DocumentsSerialise(first: seq<OpPayload>, second: seq<OpPayload>, g: GraphValue)
    requires Valid(g) && AllEnabled(first, g) && AllEnabled(second, g)
    requires forall p :: p in first + second ==> ByName(p) && (p.RenameNodeByName? ==> Idle(p))
    requires forall p, q :: p in first && q in second ==>
               if p.CreateNode? && q.CreateNode? then p.node.id != q.node.id && p.node.name != q.node.name
               else Commuting(p, q)
    ensures AllEnabled(second, Fold(first, g)) && AllEnabled(first, Fold(second, g))
    ensures BagOf(Fold(second, Fold(first, g))) == BagOf(Fold(first, Fold(second, g)))
    ensures forall x :: Resolve(Fold(second, Fold(first, g)).nodes, x) == Resolve(Fold(first, Fold(second, g)).nodes, x)
  {
    var own: Classes := (x: string) => Some(x);
    forall i | 0 <= i < |first| ensures Within(first[i], own) {
      assert first[i] in first + second;
    }
    forall i | 0 <= i < |second| ensures Within(second[i], own) {
      assert second[i] in first + second;
    }
    RebaseSerialises(first, second, g, own);
    forall x ensures Resolve(Fold(second, Fold(first, g)).nodes, x) == Resolve(Fold(first, Fold(second, g)).nodes, x) {
      AlikeResolve(Fold(second, Fold(first, g)), Fold(first, Fold(second, g)), own, x);
    }
  }

  /** That each list applies to the common base has to be asked for: a removal frees a ref, and a
      creation that commutes with it may apply after it only. */
  lemma {:induction false} RemovalFreesRef(m: GraphNode, n: GraphNode)
    requires m.id == n.id && m.name != n.name
    ensures var g := GraphValue([m], []);
            && Commuting(RemoveNodeByName(m.name), CreateNode(n)) && Valid(g)
            && Enabled(CreateNode(n), Step(RemoveNodeByName(m.name), g)) && !Enabled(CreateNode(n), g)
  {
    var g := GraphValue([m], []);
    FoundAt([m], 0);
    DropFirst(g);
    assert g.nodes[0].id == n.id;
  }

  // ---------------------------------------------------------------- two commits against one base

  /** The first of two change sets with the same base commits, the second is rebased onto it. */
  function TwoCommits(a: CanonicalChangeSet, b: CanonicalChangeSet, live: SnapshotId): seq<Submission> {
    [Submission(a, Committed(Next(live))), Submission(b, RebaseCommitted(Next(live), Next(Next(live))))]
  }

  lemma {:induction false} AppliedSettles(cs: CanonicalChangeSet, g: GraphValue, hash: GraphNode -> string)
    requires Valid(g)
    ensures Settles(cs, g, cs.base, hash, Applied, Fold(cs.ops, g))
            <==> AllHold(cs.preconditions, g, hash) && AllEnabled(cs.ops, g)
  {
    CleanIffEnabled(cs.ops, |cs.ops|, g);
  }

  /** When the two commit, and where they end. */
  lemma {:induction false} TwoCommitsEnd(a: CanonicalChangeSet, b: CanonicalChangeSet, states: seq<CoordinatorState>,
                                         hash: GraphNode -> string)
    requires |states| == 3 && Run(TwoCommits(a, b, states[0].live), states, hash) && Valid(states[0].graph)
    ensures var g := states[0].graph;
            && a.base == states[0].live && b.base != Next(a.base) && Touched(a.ops) !! Touched(b.ops)
            && AllEnabled(a.ops, g) && AllEnabled(b.ops, Fold(a.ops, g))
            && states[2].graph == Fold(b.ops, Fold(a.ops, g))
  {
    var subs := TwoCommits(a, b, states[0].live);
    assert Submits(subs[0].cs, states[0], hash, subs[0].out, states[1]);
    assert Submits(subs[1].cs, states[1], hash, subs[1].out, states[2]);
    AppliedSettles(a, states[0].graph, hash);
    FoldValid(a.ops, states[0].graph);
    AppliedSettles(b.(base := states[1].live), states[1].graph, hash);
  }

  lemma {:induction false} TwoCommitsRun(a: CanonicalChangeSet, b: CanonicalChangeSet, s: CoordinatorState,
                                         hash: GraphNode -> string) returns (states: seq<CoordinatorState>)
    requires a.base == s.live && b.base != Next(s.live) && Valid(s.graph) && Touched(a.ops) !! Touched(b.ops)
    requires AllHold(a.preconditions, s.graph, hash) && AllEnabled(a.ops, s.graph)
    requires AllHold(b.preconditions, Fold(a.ops, s.graph), hash) && AllEnabled(b.ops, Fold(a.ops, s.graph))
    ensures |states| == 3 && Run(TwoCommits(a, b, s.live), states, hash) && states[0] == s
  {
    var g1 := Fold(a.ops, s.graph);
    var g2 := Fold(b.ops, g1);
    FoldValid(a.ops, s.graph);
    AppliedSettles(a, s.graph, hash);
    var rebased := b.(base := Next(s.live));
    AppliedSettles(rebased, g1, hash);
    var s1 := AfterCommit(a.ops, g1, s.live);
    var s2 := AfterCommit(b.ops, g2, Next(s.live));
    states := [s, s1, s2];
    var subs := TwoCommits(a, b, s.live);
    assert Submits(subs[0].cs, s, hash, subs[0].out, s1);
    assert Submits(subs[1].cs, s1, hash, subs[1].out, s2);
  }

  lemma {:induction false} NextMoves(id: SnapshotId)
    ensures Next(id) != id
  {
  }

  /** The coordinator's rebase of harmonious change sets is serialisable: the run that submits them
      the other way round commits both as well, and ends in a graph that is alike. */
  lemma {:induction false} RebasedRunSerialises(a: CanonicalChangeSet, b: CanonicalChangeSet,
                                                states: seq<CoordinatorState>,
                                                hash: GraphNode -> string, f: Classes)
    requires |states| == 3 && Run(TwoCommits(a, b, states[0].live), states, hash) && Valid(states[0].graph)
    requires b.base == states[0].live && AllEnabled(b.ops, states[0].graph)
    requires AllHold(b.preconditions, states[0].graph, hash)
             && AllHold(a.preconditions, Fold(b.ops, states[0].graph), hash)
    requires AllWithin(a.ops, f) && AllWithin(b.ops, f) && AllHarmonious(a.ops, b.ops, f)
    ensures exists other: seq<CoordinatorState> :: |other| == 3 && Run(TwoCommits(b, a, states[0].live), other, hash)
                            && other[0] == states[0] && Alike(states[2].graph, other[2].graph, f)
  {
    var g := states[0].graph;
    TwoCommitsEnd(a, b, states, hash);
    RebaseSerialises(a.ops, b.ops, g, f);
    NextMoves(states[0].live);
    var other := TwoCommitsRun(b, a, states[0], hash);
    TwoCommitsEnd(b, a, other, hash);
  }

  /** A change set of one payload. */
  function Single(base: SnapshotId, p: OpPayload): CanonicalChangeSet {
    CanonicalChangeSet(base, [], [p])
  }

  lemma {:induction false} SingleOps(p: OpPayload, g: GraphValue)
    ensures Fold([p], g) == Step(p, g)
    ensures AllEnabled([p], g) <==> Enabled(p, g)
    ensures Touched([p]) == NodeRefs(p)
  {
    assert [p][1..] == [] && [p][..0] == [];
    assert Touched([]) == {};
    if AllEnabled([p], g) {
      assert Enabled([p][0], Fold([p][..0], g));
    }
  }

  /** Two runs that commit `p` and `q`, both written against one snapshot, in the two orders. */
  ghost predicate BothOrders(p: OpPayload, q: OpPayload, pq: seq<CoordinatorState>, qp: seq<CoordinatorState>,
                             hash: GraphNode -> string) {
    && |pq| == |qp| == 3 && pq[0] == qp[0] && Valid(pq[0].graph)
    && Run(TwoCommits(Single(pq[0].live, p), Single(pq[0].live, q), pq[0].live), pq, hash)
    && Run(TwoCommits(Single(pq[0].live, q), Single(pq[0].live, p), pq[0].live), qp, hash)
  }

  lemma {:induction false} BothOrdersEnd(p: OpPayload, q: OpPayload, pq: seq<CoordinatorState>,
                                         qp: seq<CoordinatorState>,
                                         hash: GraphNode -> string)
    requires BothOrders(p, q, pq, qp, hash)
    ensures var g := pq[0].graph;
            && Valid(g) && Enabled(p, g) && Enabled(q, g)
            && pq[2].graph == Step(q, Step(p, g)) && qp[2].graph == Step(p, Step(q, g))
  {
    var g, live := pq[0].graph, pq[0].live;
    TwoCommitsEnd(Single(live, p), Single(live, q), pq, hash);
    TwoCommitsEnd(Single(live, q), Single(live, p), qp, hash);
    SingleOps(p, g);
    SingleOps(q, g);
    SingleOps(q, Step(p, g));
    SingleOps(p, Step(q, g));
  }

  /** The conflict check does not see names: two payloads by name, not both creations, pass it in
      either order, and the two runs end in the same graph from every start if and only if the
      payloads commute. A stale edit of a node that a concurrent commit renamed is one that does not. */
  lemma {:induction false} NamePayloadsEscapeConflictCheck(p: OpPayload, q: OpPayload, live: SnapshotId,
                                                           hash: GraphNode -> string)
    requires ByName(p) && ByName(q) && !(p.CreateNode? && q.CreateNode?)
    ensures Commuting(p, q) ==>
              forall pq: seq<CoordinatorState>, qp: seq<CoordinatorState> :: BothOrders(p, q, pq, qp, hash) ==>
                pq[2].graph == qp[2].graph
    ensures !Commuting(p, q) ==>
              exists pq: seq<CoordinatorState>, qp: seq<CoordinatorState> :: BothOrders(p, q, pq, qp, hash)
                && pq[0].live == live && pq[2].graph != qp[2].graph
  {
    if Commuting(p, q) {
      forall pq: seq<CoordinatorState>, qp: seq<CoordinatorState> | BothOrders(p, q, pq, qp, hash)
        ensures pq[2].graph == qp[2].graph
      {
        BothOrdersEnd(p, q, pq, qp, hash);
        CommutingCommute(p, q, pq[0].graph);
      }
    } else {
      var g := OddsClash(p, q);
      var pq := SingleCommits(p, q, g, live, hash);
      var qp := SingleCommits(q, p, g, live, hash);
      assert BothOrders(p, q, pq, qp, hash);
      BothOrdersEnd(p, q, pq, qp, hash);
    }
  }

  lemma {:induction false} SingleCommits(p: OpPayload, q: OpPayload, g: GraphValue, live: SnapshotId,
                                         hash: GraphNode -> string)
    returns (states: seq<CoordinatorState>)
    requires ByName(p) && ByName(q) && !(p.CreateNode? && q.CreateNode?)
    requires Valid(g) && FreshIn(p, g) && FreshIn(q, g)
    ensures |states| == 3 && Run(TwoCommits(Single(live, p), Single(live, q), live), states, hash)
    ensures states[0] == CoordinatorState(g, live, {}, {})
  {
    SingleOps(p, g);
    SingleOps(q, Step(p, g));
    StepIds(p, g);
    NextMoves(live);
    states := TwoCommitsRun(Single(live, p), Single(live, q), CoordinatorState(g, live, {}, {}), hash);
  }
}
