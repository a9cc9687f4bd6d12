/** Graph mutation payloads: what one canonical operation does to a graph. */
module Payload {
  import opened Base
  import opened Graph

  /** The field edits that find their node by name and never touch `id` or `name`. */
  datatype NodeEdit =
    | SetReturn(ty: string)
    | SetBody(body: string)
    | SetMetadata(key: string, value: string)
    | AddParam(name: string, ty: string)
    | AddEffect(effect: string)
    | RemoveEffect(effect: string)
    | AddContract(kind: string, rule: string)
    | RemoveContract(rule: string)
    | AddCapabilityReq(capability: string)
    | RemoveCapabilityReq(capability: string)
    | SetVisibility(visibility: Visibility)
    | AddBinding(binding: Binding)
    | AddInferredFact(fact: InferredFact)
    | AddDerivedImpl(implName: string)
    | AddGeneratedArtifact(artifact: GeneratedArtifact)
    | AddAssertion(assertion: Assertion)
    | SetWorkflowState(state: WorkflowState)

  datatype OpPayload =
    | CreateNode(node: GraphNode)
    | AddEdge(edge: GraphEdge)
    | RemoveNode(nodeId: NodeRef)
    | SetNodeName(nodeId: NodeRef, newName: string)
    | RemoveNodeByName(target: string)
    | RenameNodeByName(target: string, newName: string)
    | AddEdgeByName(source: string, target: string, kind: EdgeKind)
    | RemoveEdgeByName(source: string, target: string, kind: EdgeKind)
    | EditByName(target: string, edit: NodeEdit)
    | Noop

  // ---------------------------------------------------------------- lookups

  /** The first node called `name`. */
  function FindName(nodes: seq<GraphNode>, name: string): (r: Option<nat>)
    ensures r.Some? ==> r.value < |nodes| && nodes[r.value].name == name
    ensures r.Some? ==> forall j :: 0 <= j < r.value ==> nodes[j].name != name
    ensures r.None? ==> forall j :: 0 <= j < |nodes| ==> nodes[j].name != name
  {
    if nodes == [] then None
    else if nodes[0].name == name then Some(0)
    else match FindName(nodes[1..], name)
         case Some(i) => Some(i + 1)
         case None => None
  }

  /** The first node whose ref is `id`. */
  function FindId(nodes: seq<GraphNode>, id: NodeRef): (r: Option<nat>)
    ensures r.Some? ==> r.value < |nodes| && nodes[r.value].id == id
    ensures r.Some? ==> forall j :: 0 <= j < r.value ==> nodes[j].id != id
    ensures r.None? ==> forall j :: 0 <= j < |nodes| ==> nodes[j].id != id
  {
    if nodes == [] then None
    else if nodes[0].id == id then Some(0)
    else match FindId(nodes[1..], id)
         case Some(i) => Some(i + 1)
         case None => None
  }

  /** The ref a name resolves to. */
  function Resolve(nodes: seq<GraphNode>, name: string): (r: Option<NodeRef>)
    ensures r.Some? ==> r.value in Ids(nodes)
  {
    match FindName(nodes, name)
    case Some(i) => Some(nodes[i].id)
    case None => None
  }

  // ---------------------------------------------------------------- node edits

  function PushNew<T(==)>(s: seq<T>, x: T): seq<T> {
    if x in s then s else s + [x]
  }

  function Without<T(==,!new)>(s: seq<T>, x: T): seq<T> {
    Retain(s, y => y != x)
  }

  function WithMetadata(n: GraphNode, key: string, value: string): GraphNode {
    if key == "return" || key == "type" then n.(returnType := Some(value))
    else if key == "body" then n.(bodyExpr := Some(value))
    else
      var trust := n.trustMetadata.GetOr(TrustMetadata(TrustCustom("metadata"), []));
      n.(trustMetadata := Some(trust.(tags := PushNew(trust.tags, key + "=" + value))))
  }

  function WithContract(c: ContractClauses, kind: string, rule: string): ContractClauses {
    if kind == "requires" then c.(pre := PushNew(c.pre, rule)) else c.(post := PushNew(c.post, rule))
  }

  /** The effect of one field edit on the node it found. */
  function EditNode(edit: NodeEdit, n: GraphNode): (r: GraphNode)
    ensures r.id == n.id && r.name == n.name && r.kind == n.kind
  {
    match edit
    case SetReturn(ty) => n.(returnType := Some(ty))
    case SetBody(body) => n.(bodyExpr := Some(body))
    case SetMetadata(key, value) => WithMetadata(n, key, value)
    case AddParam(name, ty) =>
      var params := n.params.GetOr([]);
      n.(params := Some(if exists i :: 0 <= i < |params| && params[i].name == name
                        then params else params + [ParamDecl(name, ty)]))
    case AddEffect(effect) => n.(effectRow := Some(PushNew(n.effectRow.GetOr([]), effect)))
    case RemoveEffect(effect) =>
      if n.effectRow.None? then n else n.(effectRow := Some(Without(n.effectRow.value, effect)))
    case AddContract(kind, rule) =>
      n.(contractClauses := Some(WithContract(n.contractClauses.GetOr(ContractClauses([], [])), kind, rule)))
    case RemoveContract(rule) =>
      if n.contractClauses.None? then n
      else n.(contractClauses := Some(ContractClauses(Without(n.contractClauses.value.pre, rule),
                                                      Without(n.contractClauses.value.post, rule))))
    case AddCapabilityReq(cap) => n.(capabilityReqs := Some(PushNew(n.capabilityReqs.GetOr([]), cap)))
    case RemoveCapabilityReq(cap) =>
      if n.capabilityReqs.None? then n else n.(capabilityReqs := Some(Without(n.capabilityReqs.value, cap)))
    case SetVisibility(v) => n.(visibility := Some(v))
    case AddBinding(b) => n.(bindings := PushNew(n.bindings, b))
    case AddInferredFact(f) => n.(inferred := PushNew(n.inferred, f))
    case AddDerivedImpl(i) => n.(derivedImpls := PushNew(n.derivedImpls, i))
    case AddGeneratedArtifact(a) => n.(generatedArtifacts := PushNew(n.generatedArtifacts, a))
    case AddAssertion(a) => n.(assertions := PushNew(n.assertions, a))
    case SetWorkflowState(s) => n.(workflowState := Some(s))
  }

  // ---------------------------------------------------------------- one step

  function OtherId(id: NodeRef): GraphNode -> bool {
    (n: GraphNode) => n.id != id
  }

  /** Edges that do not touch a node. */
  function Avoids(id: NodeRef): GraphEdge -> bool {
    (e: GraphEdge) => e.source != id && e.target != id
  }

  /** Edges other than those of one kind between two nodes. */
  function OtherThan(s: NodeRef, t: NodeRef, kind: EdgeKind): GraphEdge -> bool {
    (e: GraphEdge) => e.source != s || e.target != t || e.kind != kind
  }

  /** Remove a node and, with it, every edge that touches it. */
  function DropNode(g: GraphValue, id: NodeRef): GraphValue {
    GraphValue(Retain(g.nodes, OtherId(id)),
               Retain(g.edges, Avoids(id)))
  }

  /** Replace the first node called `target` by `h` of it. */
  function MapFirst(nodes: seq<GraphNode>, target: string, h: GraphNode -> GraphNode): (r: seq<GraphNode>)
    ensures |r| == |nodes|
  {
    match FindName(nodes, target)
    case Some(i) => nodes[i := h(nodes[i])]
    case None => nodes
  }

  function Editing(edit: NodeEdit): GraphNode -> GraphNode {
    (n: GraphNode) => EditNode(edit, n)
  }

  function Renaming(name: string): GraphNode -> GraphNode {
    (n: GraphNode) => n.(name := name)
  }

  /** The graph after one payload, before it is validated. */
  function Step(p: OpPayload, g: GraphValue): GraphValue {
    match p
    case CreateNode(node) => g.(nodes := g.nodes + [node])
    case AddEdge(edge) => g.(edges := g.edges + [edge])
    case RemoveNode(id) => DropNode(g, id)
    case SetNodeName(id, name) =>
      (match FindId(g.nodes, id)
       case Some(i) => g.(nodes := g.nodes[i := g.nodes[i].(name := name)])
       case None => g)
    case RemoveNodeByName(target) =>
      (match Resolve(g.nodes, target)
       case Some(id) => DropNode(g, id)
       case None => g)
    case RenameNodeByName(target, name) => g.(nodes := MapFirst(g.nodes, target, Renaming(name)))
    case AddEdgeByName(source, target, kind) =>
      (match (Resolve(g.nodes, source), Resolve(g.nodes, target))
       case (Some(s), Some(t)) => g.(edges := g.edges + [NewEdge(s, t, kind)])
       case _ => g)
    case RemoveEdgeByName(source, target, kind) =>
      (match (Resolve(g.nodes, source), Resolve(g.nodes, target))
       case (Some(s), Some(t)) =>
         g.(edges := Retain(g.edges, OtherThan(s, t, kind)))
       case _ => g)
    case EditByName(target, edit) => g.(nodes := MapFirst(g.nodes, target, Editing(edit)))
    case Noop => g
  }

  /** The graph after a list of payloads. */
  function Fold(ps: seq<OpPayload>, g: GraphValue): GraphValue {
    if ps == [] then g else Fold(ps[1..], Step(ps[0], g))
  }

  lemma {:induction false} FoldConcat(ps: seq<OpPayload>, qs: seq<OpPayload>, g: GraphValue)
    ensures Fold(ps + qs, g) == Fold(qs, Fold(ps, g))
  {
    if ps == [] {
      assert ps + qs == qs;
    } else {
      assert (ps + qs)[1..] == ps[1..] + qs;
      FoldConcat(ps[1..], qs, Step(ps[0], g));
    }
  }

  // ---------------------------------------------------------------- validity of one step

  /** What a payload needs of the graph it meets: a created ref must be new, and an
      edge given by refs must join existing nodes. Every other payload needs nothing. */
  ghost predicate Enabled(p: OpPayload, g: GraphValue) {
    match p
    case CreateNode(node) => node.id !in Ids(g.nodes)
    case AddEdge(edge) => EdgeGrounded(edge, g.nodes)
    case _ => true
  }

  lemma {:induction false} SameIds(a: seq<GraphNode>, b: seq<GraphNode>)
    requires |a| == |b| && forall i :: 0 <= i < |a| ==> a[i].id == b[i].id
    ensures Ids(a) == Ids(b)
    ensures UniqueIds(a) == UniqueIds(b)
  {
    forall id ensures id in Ids(a) <==> id in Ids(b) {
      if id in Ids(a) {
        var i :| 0 <= i < |a| && a[i].id == id;
        assert b[i].id == id;
      }
      if id in Ids(b) {
        var i :| 0 <= i < |b| && b[i].id == id;
        assert a[i].id == id;
      }
    }
  }

  lemma {:induction false} RetainedIds(nodes: seq<GraphNode>, id: NodeRef)
    ensures Ids(Retain(nodes, OtherId(id))) == Ids(nodes) - {id}
  {
    var kept := Retain(nodes, OtherId(id));
    RetainMembers(nodes, OtherId(id));
    forall x ensures x in Ids(kept) <==> x in Ids(nodes) - {id} {
      if x in Ids(kept) {
        var i :| 0 <= i < |kept| && kept[i].id == x;
        assert kept[i] in kept;
      }
      if x in Ids(nodes) - {id} {
        var i :| 0 <= i < |nodes| && nodes[i].id == x;
        assert nodes[i] in kept;
      }
    }
  }

  lemma {:induction false} RetainedUnique(nodes: seq<GraphNode>, id: NodeRef)
    requires UniqueIds(nodes)
    ensures UniqueIds(Retain(nodes, OtherId(id)))
  {
    var key := (n: GraphNode) => n.id;
    var kept := Retain(nodes, OtherId(id));
    RetainDistinct(nodes, OtherId(id), key);
    assert forall i, j :: 0 <= i < j < |kept| ==> key(kept[i]) != key(kept[j]);
  }

  lemma {:induction false} DropNodeIds(g: GraphValue, id: NodeRef)
    ensures Ids(DropNode(g, id).nodes) == Ids(g.nodes) - {id}
    ensures Valid(g) ==> Valid(DropNode(g, id))
  {
    RetainedIds(g.nodes, id);
    if Valid(g) {
      RetainedUnique(g.nodes, id);
      var edges := DropNode(g, id).edges;
      RetainMembers(g.edges, Avoids(id));
      assert forall k :: 0 <= k < |edges| ==> edges[k] in edges;
    }
  }

  lemma {:induction false} CreateIds(nodes: seq<GraphNode>, node: GraphNode)
    ensures Ids(nodes + [node]) == Ids(nodes) + {node.id}
    ensures UniqueIds(nodes + [node]) <==> UniqueIds(nodes) && node.id !in Ids(nodes)
  {
    var all := nodes + [node];
    assert forall i :: 0 <= i < |nodes| ==> all[i] == nodes[i];
    assert all[|nodes|] == node;
    if UniqueIds(all) {
      assert UniqueIds(nodes);
    }
  }

  lemma {:induction false} AddEdgeByNameValid(s: string, t: string, k: EdgeKind, g: GraphValue)
    requires Valid(g)
    ensures Valid(Step(AddEdgeByName(s, t, k), g))
  {
  }

  lemma {:induction false} RemoveEdgeByNameValid(s: string, t: string, k: EdgeKind, g: GraphValue)
    requires Valid(g)
    ensures Valid(Step(RemoveEdgeByName(s, t, k), g))
  {
    match (Resolve(g.nodes, s), Resolve(g.nodes, t))
    case (Some(a), Some(b)) =>
      var edges := Step(RemoveEdgeByName(s, t, k), g).edges;
      RetainMembers(g.edges, OtherThan(a, b, k));
      assert forall i :: 0 <= i < |edges| ==> edges[i] in edges;
    case _ =>
  }

  /** A step keeps a valid graph valid exactly when the payload is enabled: by-name edges
      never dangle, removals cascade, edits never touch identity. */
  lemma {:induction false} StepValid(p: OpPayload, g: GraphValue)
    requires Valid(g)
    ensures Valid(Step(p, g)) <==> Enabled(p, g)
  {
    var g' := Step(p, g);
    match p
    case CreateNode(node) =>
      CreateIds(g.nodes, node);
    case AddEdge(edge) =>
      assert g'.edges[|g.edges|] == edge;
    case RemoveNode(id) =>
      DropNodeIds(g, id);
    case SetNodeName(id, name) =>
      SameIds(g.nodes, g'.nodes);
    case RemoveNodeByName(target) =>
      if Resolve(g.nodes, target).Some? {
        DropNodeIds(g, Resolve(g.nodes, target).value);
      }
    case RenameNodeByName(_, _) =>
      SameIds(g.nodes, g'.nodes);
    case AddEdgeByName(source, target, kind) =>
      AddEdgeByNameValid(source, target, kind, g);
    case RemoveEdgeByName(source, target, kind) =>
      RemoveEdgeByNameValid(source, target, kind, g);
    case EditByName(_, _) =>
      SameIds(g.nodes, g'.nodes);
    case Noop =>
  }

  /** How a step changes the set of refs in use. */
  lemma {:induction false} StepIds(p: OpPayload, g: GraphValue)
    ensures p.CreateNode? ==> Ids(Step(p, g).nodes) == Ids(g.nodes) + {p.node.id}
    ensures !p.CreateNode? ==> Ids(Step(p, g).nodes) <= Ids(g.nodes)
    ensures !p.CreateNode? && !p.RemoveNode? && !p.RemoveNodeByName? ==> Ids(Step(p, g).nodes) == Ids(g.nodes)
  {
    var g' := Step(p, g);
    match p
    case CreateNode(node) =>
      CreateIds(g.nodes, node);
    case RemoveNode(id) =>
      DropNodeIds(g, id);
    case RemoveNodeByName(target) =>
      if Resolve(g.nodes, target).Some? {
        DropNodeIds(g, Resolve(g.nodes, target).value);
      }
    case SetNodeName(_, _) =>
      SameIds(g.nodes, g'.nodes);
    case RenameNodeByName(_, _) =>
      SameIds(g.nodes, g'.nodes);
    case EditByName(_, _) =>
      SameIds(g.nodes, g'.nodes);
    case _ =>
  }

  // ---------------------------------------------------------------- laws of the field edits

  /** The one part of a node a field edit reads and writes. */
  datatype Facet =
    | ReturnFacet | BodyFacet | TrustFacet | ParamFacet | EffectFacet | ContractFacet | CapabilityFacet
    | VisibilityFacet | BindingFacet | InferredFacet | DerivedFacet | ArtifactFacet | AssertionFacet | WorkflowFacet

  function FacetOf(edit: NodeEdit): Facet {
    match edit
    case SetReturn(_) => ReturnFacet
    case SetBody(_) => BodyFacet
    case SetMetadata(key, _) =>
      if key == "return" || key == "type" then ReturnFacet else if key == "body" then BodyFacet else TrustFacet
    case AddParam(_, _) => ParamFacet
    case AddEffect(_) => EffectFacet
    case RemoveEffect(_) => EffectFacet
    case AddContract(_, _) => ContractFacet
    case RemoveContract(_) => ContractFacet
    case AddCapabilityReq(_) => CapabilityFacet
    case RemoveCapabilityReq(_) => CapabilityFacet
    case SetVisibility(_) => VisibilityFacet
    case AddBinding(_) => BindingFacet
    case AddInferredFact(_) => InferredFacet
    case AddDerivedImpl(_) => DerivedFacet
    case AddGeneratedArtifact(_) => ArtifactFacet
    case AddAssertion(_) => AssertionFacet
    case SetWorkflowState(_) => WorkflowFacet
  }

  /** `n` with the named facet taken from `m`. */
  function CopyFacet(f: Facet, n: GraphNode, m: GraphNode): GraphNode {
    match f
    case ReturnFacet => n.(returnType := m.returnType)
    case BodyFacet => n.(bodyExpr := m.bodyExpr)
    case TrustFacet => n.(trustMetadata := m.trustMetadata)
    case ParamFacet => n.(params := m.params)
    case EffectFacet => n.(effectRow := m.effectRow)
    case ContractFacet => n.(contractClauses := m.contractClauses)
    case CapabilityFacet => n.(capabilityReqs := m.capabilityReqs)
    case VisibilityFacet => n.(visibility := m.visibility)
    case BindingFacet => n.(bindings := m.bindings)
    case InferredFacet => n.(inferred := m.inferred)
    case DerivedFacet => n.(derivedImpls := m.derivedImpls)
    case ArtifactFacet => n.(generatedArtifacts := m.generatedArtifacts)
    case AssertionFacet => n.(assertions := m.assertions)
    case WorkflowFacet => n.(workflowState := m.workflowState)
  }

  /** An edit writes only its facet. */
  lemma {:induction false} EditIsLocal(edit: NodeEdit, n: GraphNode)
    ensures EditNode(edit, n) == CopyFacet(FacetOf(edit), n, EditNode(edit, n))
  {
  }

  lemma {:induction false} SettersIgnoreOtherFacets(edit: NodeEdit, f: Facet, n: GraphNode, x: GraphNode)
    requires edit.SetReturn? || edit.SetBody? || edit.SetMetadata? || edit.SetVisibility? || edit.SetWorkflowState?
    requires f != FacetOf(edit)
    ensures EditNode(edit, CopyFacet(f, n, x)) == CopyFacet(f, EditNode(edit, n), x)
  {
  }

  lemma {:induction false} RowEditsIgnoreOtherFacets(edit: NodeEdit, f: Facet, n: GraphNode, x: GraphNode)
    requires edit.AddParam? || edit.AddEffect? || edit.RemoveEffect?
    requires f != FacetOf(edit)
    ensures EditNode(edit, CopyFacet(f, n, x)) == CopyFacet(f, EditNode(edit, n), x)
  {
  }

  lemma {:induction false} ContractEditsIgnoreOtherFacets(edit: NodeEdit, f: Facet, n: GraphNode, x: GraphNode)
    requires edit.AddContract? || edit.RemoveContract?
    requires f != FacetOf(edit)
    ensures EditNode(edit, CopyFacet(f, n, x)) == CopyFacet(f, EditNode(edit, n), x)
  {
  }

  lemma {:induction false} CapabilityEditsIgnoreOtherFacets(edit: NodeEdit, f: Facet, n: GraphNode, x: GraphNode)
    requires edit.AddCapabilityReq? || edit.RemoveCapabilityReq? || edit.AddBinding?
    requires f != FacetOf(edit)
    ensures EditNode(edit, CopyFacet(f, n, x)) == CopyFacet(f, EditNode(edit, n), x)
  {
  }

  lemma {:induction false} FactEditsIgnoreOtherFacets(edit: NodeEdit, f: Facet, n: GraphNode, x: GraphNode)
    requires edit.AddInferredFact? || edit.AddDerivedImpl? || edit.AddGeneratedArtifact? || edit.AddAssertion?
    requires f != FacetOf(edit)
    ensures EditNode(edit, CopyFacet(f, n, x)) == CopyFacet(f, EditNode(edit, n), x)
  {
  }

  /** An edit neither reads nor writes any other facet. */
  lemma {:induction false} EditIgnoresOtherFacets(edit: NodeEdit, f: Facet, n: GraphNode, x: GraphNode)
    requires f != FacetOf(edit)
    ensures EditNode(edit, CopyFacet(f, n, x)) == CopyFacet(f, EditNode(edit, n), x)
  {
    match edit
    case SetReturn(_) | SetBody(_) | SetMetadata(_, _) | SetVisibility(_) | SetWorkflowState(_) =>
      SettersIgnoreOtherFacets(edit, f, n, x);
    case AddParam(_, _) | AddEffect(_) | RemoveEffect(_) =>
      RowEditsIgnoreOtherFacets(edit, f, n, x);
    case AddContract(_, _) | RemoveContract(_) =>
      ContractEditsIgnoreOtherFacets(edit, f, n, x);
    case AddCapabilityReq(_) | RemoveCapabilityReq(_) | AddBinding(_) =>
      CapabilityEditsIgnoreOtherFacets(edit, f, n, x);
    case _ =>
      FactEditsIgnoreOtherFacets(edit, f, n, x);
  }

  lemma {:induction false} CopiesCommute(f: Facet, h: Facet, n: GraphNode, x: GraphNode, y: GraphNode)
    requires f != h
    ensures CopyFacet(f, CopyFacet(h, n, y), x) == CopyFacet(h, CopyFacet(f, n, x), y)
  {
  }

  /** Edits of different facets commute on every node. */
  lemma {:induction false} EditsCommute(a: NodeEdit, b: NodeEdit, n: GraphNode)
    requires FacetOf(a) != FacetOf(b)
    ensures EditNode(a, EditNode(b, n)) == EditNode(b, EditNode(a, n))
  {
    var fa, fb := FacetOf(a), FacetOf(b);
    var x, y := EditNode(b, n), EditNode(a, n);
    calc {
      EditNode(a, x);
      { EditIsLocal(b, n); }
      EditNode(a, CopyFacet(fb, n, x));
      { EditIgnoresOtherFacets(a, fb, n, x); }
      CopyFacet(fb, y, x);
      { EditIsLocal(a, n); CopiesCommute(fb, fa, n, x, y); EditIsLocal(b, n); }
      CopyFacet(fa, x, y);
      { EditIgnoresOtherFacets(b, fa, n, y); }
      EditNode(b, CopyFacet(fa, n, y));
      { EditIsLocal(a, n); }
      EditNode(b, y);
    }
  }

  lemma {:induction false} WithoutMember<T(!new)>(s: seq<T>, x: T)
    ensures x !in Without(s, x)
  {
    RetainMembers(s, y => y != x);
  }

  lemma {:induction false} WithoutTwice<T(!new)>(s: seq<T>, x: T)
    ensures Without(Without(s, x), x) == Without(s, x)
  {
    RetainMembers(s, y => y != x);
    RetainAll(Without(s, x), y => y != x);
  }

  /** Repeating an edit changes nothing: no duplicate parameter, effect, rule, tag or fact. */
  lemma {:induction false} EditIdempotent(edit: NodeEdit, n: GraphNode)
    ensures EditNode(edit, EditNode(edit, n)) == EditNode(edit, n)
  {
    match edit
    case RemoveEffect(effect) =>
      if n.effectRow.Some? { WithoutTwice(n.effectRow.value, effect); }
    case RemoveContract(rule) =>
      if n.contractClauses.Some? {
        WithoutTwice(n.contractClauses.value.pre, rule);
        WithoutTwice(n.contractClauses.value.post, rule);
      }
    case RemoveCapabilityReq(cap) =>
      if n.capabilityReqs.Some? { WithoutTwice(n.capabilityReqs.value, cap); }
    case AddParam(name, ty) =>
      var params := n.params.GetOr([]);
      var params' := EditNode(edit, n).params.value;
      if !exists i :: 0 <= i < |params| && params[i].name == name {
        assert params'[|params|].name == name;
      }
    case _ =>
  }

  lemma {:induction false} WithoutPushed<T(!new)>(s: seq<T>, x: T)
    requires x !in s
    ensures Without(s + [x], x) == s
  {
    RetainConcat(s, [x], y => y != x);
    RetainAll(s, y => y != x);
  }

  /** Removing an effect undoes adding it exactly when the node had an effect row
      without that effect: an absent row comes back as an empty one, and a row that
      already declared the effect loses it. */
  lemma {:induction false} RemoveEffectUndoesAdd(n: GraphNode, effect: string)
    ensures EditNode(RemoveEffect(effect), EditNode(AddEffect(effect), n)) == n
            <==> n.effectRow.Some? && effect !in n.effectRow.value
  {
    if n.effectRow.Some? && effect !in n.effectRow.value {
      WithoutPushed(n.effectRow.value, effect);
    } else if n.effectRow.Some? {
      var r := EditNode(RemoveEffect(effect), EditNode(AddEffect(effect), n));
      WithoutMember(EditNode(AddEffect(effect), n).effectRow.value, effect);
      assert effect !in r.effectRow.value;
    }
  }

  /** The same law for `grant` and `revoke`. */
  lemma {:induction false} RevokeUndoesGrant(n: GraphNode, cap: string)
    ensures EditNode(RemoveCapabilityReq(cap), EditNode(AddCapabilityReq(cap), n)) == n
            <==> n.capabilityReqs.Some? && cap !in n.capabilityReqs.value
  {
    if n.capabilityReqs.Some? && cap !in n.capabilityReqs.value {
      WithoutPushed(n.capabilityReqs.value, cap);
    } else if n.capabilityReqs.Some? {
      var r := EditNode(RemoveCapabilityReq(cap), EditNode(AddCapabilityReq(cap), n));
      WithoutMember(EditNode(AddCapabilityReq(cap), n).capabilityReqs.value, cap);
      assert cap !in r.capabilityReqs.value;
    }
  }
}
