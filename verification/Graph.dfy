/** The semantic graph: typed nodes and edges, and the structural validator that
    every change set has to satisfy. */
module Graph {
  import opened Base

  /** Intra-graph node identity, a `u32`. */
  type NodeRef = r: int | 0 <= r <= U32_MAX

  datatype NodeKind =
    | Module | Function | Type | Effect | Capability | Contract | Invariant | Test
    | Boundary | Package | Interface | Impl | EffectAlias | Import | Export
    | VersionConstraint | CapabilityExport | ContractExport

  datatype EdgeKind =
    | Calls | DynCalls | Reads | Writes | Emits | DependsOn | Proves | BreaksIfChanged
    | Consumes | Releases | SpawnedBy | ChildOf | SafeCapability

  datatype Visibility = Public | Private | Internal

  datatype WorkflowState =
    Draft | Locked | Approved | Rejected | Verified | Migrating | Refactoring

  datatype TrustLevel = TrustVerified | TrustAssumed | TrustUnverified | TrustUnsafe | TrustCustom(tag: string)

  datatype TypeFacts = TypeFacts(nominal: string, generics: seq<string>)
  datatype ContractClauses = ContractClauses(pre: seq<string>, post: seq<string>)
  datatype RuntimeCheckMeta = RuntimeCheckMeta(predicate_: string, hash: string)
  datatype TrustMetadata = TrustMetadata(level: TrustLevel, tags: seq<string>)
  datatype ParamDecl = ParamDecl(name: string, ty: string)
  datatype Binding = Binding(name: string, implementation: string, profile: Option<string>)
  datatype InferredFact = InferredFact(kind: string, value: string)
  datatype GeneratedArtifact = GeneratedArtifact(kind: string, source: Option<string>)
  datatype Assertion = Assertion(kind: string, value: string)

  /** A graph node. `rest` stands for the fields no modelled operation reads or writes
      on its own (content hash, provenance, schema, generics, span, ...). */
  datatype GraphNode = GraphNode(
    id: NodeRef,
    kind: NodeKind,
    name: string,
    typeFacts: Option<TypeFacts>,
    effectRow: Option<seq<string>>,
    capabilityReqs: Option<seq<string>>,
    contractClauses: Option<ContractClauses>,
    runtimeChecks: Option<seq<RuntimeCheckMeta>>,
    trustMetadata: Option<TrustMetadata>,
    params: Option<seq<ParamDecl>>,
    returnType: Option<string>,
    bodyExpr: Option<string>,
    visibility: Option<Visibility>,
    bindings: seq<Binding>,
    inferred: seq<InferredFact>,
    derivedImpls: seq<string>,
    generatedArtifacts: seq<GeneratedArtifact>,
    assertions: seq<Assertion>,
    workflowState: Option<WorkflowState>,
    rest: map<string, string>)

  /** `GraphNode::new`: every optional field absent, every list empty. */
  function NewNode(id: NodeRef, kind: NodeKind, name: string): GraphNode {
    GraphNode(id, kind, name, None, None, None, None, None, None, None, None, None, None,
              [], [], [], [], [], None, map[])
  }

  /** A directed typed edge. `callSite` stands for the optional call-site metadata. */
  datatype GraphEdge = GraphEdge(source: NodeRef, target: NodeRef, kind: EdgeKind, callSite: Option<seq<string>>)

  function NewEdge(source: NodeRef, target: NodeRef, kind: EdgeKind): GraphEdge {
    GraphEdge(source, target, kind, None)
  }

  /** The value of a semantic graph: nodes and edges in insertion order. */
  datatype GraphValue = GraphValue(nodes: seq<GraphNode>, edges: seq<GraphEdge>)

  const EMPTY_GRAPH := GraphValue([], [])

  function Ids(nodes: seq<GraphNode>): (r: set<NodeRef>)
    ensures forall id :: id in r <==> exists i :: 0 <= i < |nodes| && nodes[i].id == id
  {
    set i | 0 <= i < |nodes| :: nodes[i].id
  }

  ghost predicate UniqueIds(nodes: seq<GraphNode>) {
    forall i, j :: 0 <= i < j < |nodes| ==> nodes[i].id != nodes[j].id
  }

  ghost predicate EdgeGrounded(e: GraphEdge, nodes: seq<GraphNode>) {
    e.source in Ids(nodes) && e.target in Ids(nodes)
  }

  ghost predicate NoDangling(g: GraphValue) {
    forall k :: 0 <= k < |g.edges| ==> EdgeGrounded(g.edges[k], g.nodes)
  }

  /** Structural validity: node refs are unique and no edge dangles. */
  ghost predicate Valid(g: GraphValue) {
    UniqueIds(g.nodes) && NoDangling(g)
  }

  datatype DanglingRole = SourceRole | TargetRole

  datatype ValidationError =
    | DuplicateRef(id: NodeRef)
    | DanglingEdge(id: NodeRef, role: DanglingRole)

  /** `err` is the first defect of `g` in the order the validator looks: node refs in
      insertion order, then edges in insertion order, the source end before the target. */
  ghost predicate FirstDefect(g: GraphValue, err: ValidationError) {
    match err
    case DuplicateRef(id) =>
      exists j :: 0 <= j < |g.nodes| && g.nodes[j].id == id && UniqueIds(g.nodes[..j]) && id in Ids(g.nodes[..j])
    case DanglingEdge(id, role) =>
      UniqueIds(g.nodes) && id !in Ids(g.nodes) && exists k :: FirstDanglingAt(g, k, id, role)
  }

  ghost predicate FirstDanglingAt(g: GraphValue, k: nat, id: NodeRef, role: DanglingRole) {
    && k < |g.edges|
    && (forall m :: 0 <= m < k ==> EdgeGrounded(g.edges[m], g.nodes))
    && match role
       case SourceRole => g.edges[k].source == id
       case TargetRole => g.edges[k].target == id && g.edges[k].source in Ids(g.nodes)
  }

  /** The graph object that change sets mutate in place. */
  class SemanticGraph {
    var nodes: seq<GraphNode>
    var edges: seq<GraphEdge>

    constructor (g: GraphValue)
      ensures Value() == g
    {
      nodes, edges := g.nodes, g.edges;
    }

    ghost function Value(): GraphValue
      reads this
    {
      GraphValue(nodes, edges)
    }

    /** Accepts exactly the valid graphs, and otherwise names the first defect. */
    method Validate() returns (r: Result<(), ValidationError>)
      ensures r.Ok? <==> Valid(Value())
      ensures r.Err? ==> FirstDefect(Value(), r.error)
    {
      var seen: set<NodeRef> := {};
      for i := 0 to |nodes|
        invariant seen == Ids(nodes[..i])
        invariant UniqueIds(nodes[..i])
      {
        if nodes[i].id in seen {
          return Err(DuplicateRef(nodes[i].id));
        }
        seen := seen + {nodes[i].id};
        assert nodes[..i + 1] == nodes[..i] + [nodes[i]];
        assert seen == Ids(nodes[..i + 1]);
      }
      assert nodes[..|nodes|] == nodes;
      for k := 0 to |edges|
        invariant forall m :: 0 <= m < k ==> EdgeGrounded(edges[m], nodes)
      {
        if edges[k].source !in seen {
          assert FirstDanglingAt(Value(), k, edges[k].source, SourceRole);
          return Err(DanglingEdge(edges[k].source, SourceRole));
        }
        if edges[k].target !in seen {
          assert FirstDanglingAt(Value(), k, edges[k].target, TargetRole);
          return Err(DanglingEdge(edges[k].target, TargetRole));
        }
      }
      return Ok(());
    }
  }
}
