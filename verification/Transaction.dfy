/** Atomic application of a canonical change set: snapshot guard, preconditions,
    per-operation validation, rollback. */
module Transaction {
  import opened Base
  import opened Graph
  import opened Payload

  const U64_MODULUS := 0x1_0000_0000_0000_0000

  type SnapshotId = s: int | 0 <= s < U64_MODULUS

  /** Conditions evaluated before any operation. Hashes are their lower-case hex text. */
  datatype Precondition =
    | AssertExists(id: NodeRef)
    | AssertHash(id: NodeRef, expected: string)
    | AssertExistsByName(name: string)
    | AssertHashByName(name: string, expected: string)
    | AssertContext(name: string, contextHash: Option<string>)

  datatype CanonicalChangeSet = CanonicalChangeSet(
    base: SnapshotId,
    preconditions: seq<Precondition>,
    ops: seq<OpPayload>)

  datatype FailureReason =
    | PreconditionFailed(precondition: Precondition)
    | InvariantViolated(error: ValidationError)

  datatype Outcome =
    | Applied
    | RebaseRequired(current: SnapshotId)
    | Failed(reason: FailureReason)

  /** The id after one more commit; the counter wraps at 2^64. */
  function Next(id: SnapshotId): SnapshotId {
    (id + 1) % U64_MODULUS
  }

  /** Source of the live snapshot id: a counter advanced once per committed change set. */
  class SnapshotBridge {
    var currentId: SnapshotId

    constructor (initial: SnapshotId)
      ensures currentId == initial
    {
      currentId := initial;
    }

    method CurrentSnapshotId() returns (id: SnapshotId)
      ensures id == currentId
    {
      id := currentId;
    }

    method AdvanceSnapshotId()
      modifies this
      ensures currentId == Next(old(currentId))
    {
      currentId := if currentId == U64_MODULUS - 1 then 0 else currentId + 1;
    }
  }

  // ---------------------------------------------------------------- specification

  /** When a precondition holds; `hash` is the hex content hash of a node. */
  ghost predicate Holds(p: Precondition, g: GraphValue, hash: GraphNode -> string) {
    match p
    case AssertExists(id) => id in Ids(g.nodes)
    case AssertHash(id, expected) =>
      exists i: nat :: FirstWithId(g.nodes, i, id) && hash(g.nodes[i]) == expected
    case AssertExistsByName(name) => exists i :: 0 <= i < |g.nodes| && g.nodes[i].name == name
    case AssertHashByName(name, expected) =>
      exists i: nat :: FirstWithName(g.nodes, i, name) && hash(g.nodes[i]) == expected
    case AssertContext(name, contextHash) =>
      exists i: nat :: FirstWithName(g.nodes, i, name)
                  && (contextHash.Some? ==> contextHash.value <= hash(g.nodes[i]))
  }

  ghost predicate FirstWithId(nodes: seq<GraphNode>, i: nat, id: NodeRef) {
    i < |nodes| && nodes[i].id == id && forall j :: 0 <= j < i ==> nodes[j].id != id
  }

  ghost predicate FirstWithName(nodes: seq<GraphNode>, i: nat, name: string) {
    i < |nodes| && nodes[i].name == name && forall j :: 0 <= j < i ==> nodes[j].name != name
  }

  ghost predicate AllHold(ps: seq<Precondition>, g: GraphValue, hash: GraphNode -> string) {
    forall k :: 0 <= k < |ps| ==> Holds(ps[k], g, hash)
  }

  /** Every graph after the first `k` operations is valid. */
  ghost predicate CleanUpTo(ops: seq<OpPayload>, k: nat, g: GraphValue)
    requires k <= |ops|
  {
    forall i :: 1 <= i <= k ==> Valid(Fold(ops[..i], g))
  }

  ghost predicate FailsPrecondition(ps: seq<Precondition>, g: GraphValue, hash: GraphNode -> string, p: Precondition) {
    exists k :: 0 <= k < |ps| && ps[k] == p && !Holds(p, g, hash) && AllHold(ps[..k], g, hash)
  }

  ghost predicate FailsAt(ops: seq<OpPayload>, g: GraphValue, k: nat, err: ValidationError) {
    && k < |ops|
    && CleanUpTo(ops, k, g)
    && FirstDefect(Fold(ops[..k + 1], g), err)
    && !Valid(Fold(ops[..k + 1], g))
  }

  /** `outcome` and `g'` are the legal end of applying `cs` to `g` while `live` is current. */
  ghost predicate Settles(cs: CanonicalChangeSet, g: GraphValue, live: SnapshotId, hash: GraphNode -> string,
                          outcome: Outcome, g': GraphValue) {
    match outcome
    case RebaseRequired(current) => cs.base != live && current == live && g' == g
    case Failed(PreconditionFailed(p)) =>
      cs.base == live && g' == g && FailsPrecondition(cs.preconditions, g, hash, p)
    case Failed(InvariantViolated(err)) =>
      cs.base == live && g' == g && AllHold(cs.preconditions, g, hash) && exists k: nat :: FailsAt(cs.ops, g, k, err)
    case Applied =>
      && cs.base == live && AllHold(cs.preconditions, g, hash)
      && CleanUpTo(cs.ops, |cs.ops|, g)
      && g' == Fold(cs.ops, g)
  }

  // ---------------------------------------------------------------- the engine

  method FindByName(nodes: seq<GraphNode>, name: string) returns (r: Option<nat>)
    ensures r == FindName(nodes, name)
  {
    for i := 0 to |nodes|
      invariant forall j :: 0 <= j < i ==> nodes[j].name != name
    {
      if nodes[i].name == name {
        return Some(i);
      }
    }
    return None;
  }

  method FindById(nodes: seq<GraphNode>, id: NodeRef) returns (r: Option<nat>)
    ensures r == FindId(nodes, id)
  {
    for i := 0 to |nodes|
      invariant forall j :: 0 <= j < i ==> nodes[j].id != id
    {
      if nodes[i].id == id {
        return Some(i);
      }
    }
    return None;
  }

  /** `None` when the precondition holds, otherwise the failure to report. */
  method EvaluatePrecondition(p: Precondition, graph: SemanticGraph, hash: GraphNode -> string)
    returns (r: Option<FailureReason>)
    ensures r.None? <==> Holds(p, graph.Value(), hash)
    ensures r.Some? ==> r.value == PreconditionFailed(p)
  {
    match p
    case AssertExists(id) =>
      var i := FindById(graph.nodes, id);
      return if i.Some? then None else Some(PreconditionFailed(p));
    case AssertHash(id, expected) =>
      var i := FindById(graph.nodes, id);
      assert i.Some? ==> forall j: nat :: FirstWithId(graph.nodes, j, id) ==> j == i.value;
      if i.None? || hash(graph.nodes[i.value]) != expected {
        return Some(PreconditionFailed(p));
      }
      assert FirstWithId(graph.nodes, i.value, id);
      return None;
    case AssertExistsByName(name) =>
      var i := FindByName(graph.nodes, name);
      return if i.Some? then None else Some(PreconditionFailed(p));
    case AssertHashByName(name, expected) =>
      var i := FindByName(graph.nodes, name);
      assert i.Some? ==> forall j: nat :: FirstWithName(graph.nodes, j, name) ==> j == i.value;
      if i.None? || hash(graph.nodes[i.value]) != expected {
        return Some(PreconditionFailed(p));
      }
      assert FirstWithName(graph.nodes, i.value, name);
      return None;
    case AssertContext(name, contextHash) =>
      var i := FindByName(graph.nodes, name);
      if i.None? {
        return Some(PreconditionFailed(p));
      }
      assert forall j: nat :: FirstWithName(graph.nodes, j, name) ==> j == i.value;
      if contextHash.Some? {
        var computed := hash(graph.nodes[i.value]);
        if !(contextHash.value <= computed) && computed != contextHash.value {
          return Some(PreconditionFailed(p));
        }
      }
      assert FirstWithName(graph.nodes, i.value, name);
      return None;
  }

  /** One field edit, as the engine performs it on the node it found. */
  method EditInPlace(edit: NodeEdit, node: GraphNode) returns (n: GraphNode)
    ensures n == EditNode(edit, node)
  {
    n := node;
    match edit
    case SetReturn(ty) => n := n.(returnType := Some(ty));
    case SetBody(body) => n := n.(bodyExpr := Some(body));
    case SetMetadata(key, value) =>
      if key == "return" || key == "type" {
        n := n.(returnType := Some(value));
      } else if key == "body" {
        n := n.(bodyExpr := Some(value));
      } else {
        var trust := n.trustMetadata.GetOr(TrustMetadata(TrustCustom("metadata"), []));
        var tag := key + "=" + value;
        if tag !in trust.tags {
          trust := trust.(tags := trust.tags + [tag]);
        }
        n := n.(trustMetadata := Some(trust));
      }
    case AddParam(name, ty) =>
      var params := n.params.GetOr([]);
      if !exists i :: 0 <= i < |params| && params[i].name == name {
        params := params + [ParamDecl(name, ty)];
      }
      n := n.(params := Some(params));
    case AddEffect(effect) =>
      var row := n.effectRow.GetOr([]);
      if effect !in row {
        row := row + [effect];
      }
      n := n.(effectRow := Some(row));
    case RemoveEffect(effect) =>
      if n.effectRow.Some? {
        n := n.(effectRow := Some(Without(n.effectRow.value, effect)));
      }
    case AddContract(kind, rule) =>
      var clauses := n.contractClauses.GetOr(ContractClauses([], []));
      if kind == "requires" {
        if rule !in clauses.pre {
          clauses := clauses.(pre := clauses.pre + [rule]);
        }
      } else if rule !in clauses.post {
        clauses := clauses.(post := clauses.post + [rule]);
      }
      n := n.(contractClauses := Some(clauses));
    case RemoveContract(rule) =>
      if n.contractClauses.Some? {
        var clauses := n.contractClauses.value;
        clauses := clauses.(pre := Without(clauses.pre, rule));
        clauses := clauses.(post := Without(clauses.post, rule));
        n := n.(contractClauses := Some(clauses));
      }
    case AddCapabilityReq(cap) =>
      var caps := n.capabilityReqs.GetOr([]);
      if cap !in caps {
        caps := caps + [cap];
      }
      n := n.(capabilityReqs := Some(caps));
    case RemoveCapabilityReq(cap) =>
      if n.capabilityReqs.Some? {
        n := n.(capabilityReqs := Some(Without(n.capabilityReqs.value, cap)));
      }
    case SetVisibility(v) => n := n.(visibility := Some(v));
    case AddBinding(b) =>
      if b !in n.bindings { n := n.(bindings := n.bindings + [b]); }
    case AddInferredFact(f) =>
      if f !in n.inferred { n := n.(inferred := n.inferred + [f]); }
    case AddDerivedImpl(i) =>
      if i !in n.derivedImpls { n := n.(derivedImpls := n.derivedImpls + [i]); }
    case AddGeneratedArtifact(a) =>
      if a !in n.generatedArtifacts { n := n.(generatedArtifacts := n.generatedArtifacts + [a]); }
    case AddAssertion(a) =>
      if a !in n.assertions { n := n.(assertions := n.assertions + [a]); }
    case SetWorkflowState(s) => n := n.(workflowState := Some(s));
  }

  /** The refs of both ends of an edge, if both names are found. */
  method ResolveEnds(nodes: seq<GraphNode>, source: string, target: string) returns (r: Option<(NodeRef, NodeRef)>)
    ensures r == match (Resolve(nodes, source), Resolve(nodes, target))
                 case (Some(s), Some(t)) => Some((s, t))
                 case _ => None
  {
    var s := FindByName(nodes, source);
    var t := FindByName(nodes, target);
    r := if s.Some? && t.Some? then Some((nodes[s.value].id, nodes[t.value].id)) else None;
  }

  /** Apply one payload in place, without validating. */
  method ApplyPayload(p: OpPayload, graph: SemanticGraph)
    modifies graph
    ensures graph.Value() == Step(p, old(graph.Value()))
  {
    match p
    case CreateNode(node) =>
      graph.nodes := graph.nodes + [node];
    case AddEdge(edge) =>
      graph.edges := graph.edges + [edge];
    case RemoveNode(id) =>
      graph.nodes := Retain(graph.nodes, OtherId(id));
      graph.edges := Retain(graph.edges, Avoids(id));
    case SetNodeName(id, name) =>
      var i := FindById(graph.nodes, id);
      if i.Some? {
        graph.nodes := graph.nodes[i.value := graph.nodes[i.value].(name := name)];
      }
    case RemoveNodeByName(name) =>
      var i := FindByName(graph.nodes, name);
      if i.Some? {
        var id := graph.nodes[i.value].id;
        graph.nodes := Retain(graph.nodes, OtherId(id));
        graph.edges := Retain(graph.edges, Avoids(id));
      }
    case RenameNodeByName(target, name) =>
      var i := FindByName(graph.nodes, target);
      if i.Some? {
        graph.nodes := graph.nodes[i.value := graph.nodes[i.value].(name := name)];
      }
    case AddEdgeByName(source, target, kind) =>
      var ends := ResolveEnds(graph.nodes, source, target);
      if ends.Some? {
        graph.edges := graph.edges + [NewEdge(ends.value.0, ends.value.1, kind)];
      }
    case RemoveEdgeByName(source, target, kind) =>
      var ends := ResolveEnds(graph.nodes, source, target);
      if ends.Some? {
        graph.edges := Retain(graph.edges, OtherThan(ends.value.0, ends.value.1, kind));
      }
    case EditByName(target, edit) =>
      var i := FindByName(graph.nodes, target);
      if i.Some? {
        var edited := EditInPlace(edit, graph.nodes[i.value]);
        graph.nodes := graph.nodes[i.value := edited];
      }
    case Noop =>
  }

  lemma {:induction false} FoldLast(ops: seq<OpPayload>, k: nat, g: GraphValue)
    requires k < |ops|
    ensures Fold(ops[..k + 1], g) == Step(ops[k], Fold(ops[..k], g))
  {
    assert ops[..k + 1] == ops[..k] + [ops[k]];
    FoldConcat(ops[..k], [ops[k]], g);
  }

  /** Evaluate the preconditions in order, stopping at the first that fails. */
  method CheckPreconditions(ps: seq<Precondition>, graph: SemanticGraph, hash: GraphNode -> string)
    returns (r: Option<FailureReason>)
    ensures r.None? ==> AllHold(ps, graph.Value(), hash)
    ensures r.Some? ==> r.value.PreconditionFailed? && FailsPrecondition(ps, graph.Value(), hash, r.value.precondition)
  {
    for k := 0 to |ps|
      invariant AllHold(ps[..k], graph.Value(), hash)
    {
      r := EvaluatePrecondition(ps[k], graph, hash);
      if r.Some? {
        return;
      }
    }
    return None;
  }

  /** Apply the payloads in order, validating after each; on a defect the graph is left
      where it was found. */
  method ApplyOps(ops: seq<OpPayload>, graph: SemanticGraph) returns (r: Option<ValidationError>)
    modifies graph
    ensures r.None? ==> CleanUpTo(ops, |ops|, old(graph.Value())) && graph.Value() == Fold(ops, old(graph.Value()))
    ensures r.Some? ==> exists k: nat :: FailsAt(ops, old(graph.Value()), k, r.value)
  {
    ghost var g := graph.Value();
    for k := 0 to |ops|
      invariant graph.Value() == Fold(ops[..k], g)
      invariant CleanUpTo(ops, k, g)
    {
      ApplyPayload(ops[k], graph);
      FoldLast(ops, k, g);
      var verdict := graph.Validate();
      if verdict.Err? {
        assert FailsAt(ops, g, k, verdict.error);
        return Some(verdict.error);
      }
    }
    assert ops[..|ops|] == ops;
    return None;
  }

  /** Apply a change set in place; anything but `Applied` leaves the graph as it was. */
  method Apply(cs: CanonicalChangeSet, graph: SemanticGraph, bridge: SnapshotBridge, hash: GraphNode -> string)
    returns (outcome: Outcome)
    modifies graph
    ensures Settles(cs, old(graph.Value()), bridge.currentId, hash, outcome, graph.Value())
  {
    var live := bridge.CurrentSnapshotId();
    if cs.base != live {
      return RebaseRequired(live);
    }
    var savedNodes, savedEdges := graph.nodes, graph.edges;
    var failure := CheckPreconditions(cs.preconditions, graph, hash);
    if failure.Some? {
      graph.nodes, graph.edges := savedNodes, savedEdges;
      return Failed(failure.value);
    }
    var defect := ApplyOps(cs.ops, graph);
    if defect.Some? {
      graph.nodes, graph.edges := savedNodes, savedEdges;
      return Failed(InvariantViolated(defect.value));
    }
    return Applied;
  }

  // ---------------------------------------------------------------- what application guarantees

  /** Application is all-or-nothing, and a valid graph stays valid. */
  lemma {:induction false} SettlesKeepsValidity(cs: CanonicalChangeSet, g: GraphValue, live: SnapshotId,
                                                hash: GraphNode -> string, outcome: Outcome, g': GraphValue)
    requires Settles(cs, g, live, hash, outcome, g')
    ensures !outcome.Applied? ==> g' == g
    ensures Valid(g) ==> Valid(g')
  {
    if outcome.Applied? && |cs.ops| > 0 {
      assert cs.ops[..|cs.ops|] == cs.ops;
    }
  }

  lemma {:induction false} DuplicateUnique(nodes: seq<GraphNode>, j: nat, k: nat)
    requires j < |nodes| && UniqueIds(nodes[..j]) && nodes[j].id in Ids(nodes[..j])
    requires k < |nodes| && UniqueIds(nodes[..k]) && nodes[k].id in Ids(nodes[..k])
    ensures j == k
  {
  }

  lemma {:induction false} FirstDefectUnique(g: GraphValue, a: ValidationError, b: ValidationError)
    requires FirstDefect(g, a) && FirstDefect(g, b)
    ensures a == b
  {
    match (a, b)
    case (DanglingEdge(id, role), DanglingEdge(id', role')) =>
      var k: nat :| FirstDanglingAt(g, k, id, role);
      var m: nat :| FirstDanglingAt(g, m, id', role');
    case (DuplicateRef(id), DuplicateRef(id')) =>
      var j :| 0 <= j < |g.nodes| && g.nodes[j].id == id && UniqueIds(g.nodes[..j]) && id in Ids(g.nodes[..j]);
      var k :| 0 <= k < |g.nodes| && g.nodes[k].id == id' && UniqueIds(g.nodes[..k]) && id' in Ids(g.nodes[..k]);
      DuplicateUnique(g.nodes, j, k);
    case (DuplicateRef(id), _) =>
      DuplicateIsInvalid(g, id);
    case (_, DuplicateRef(id)) =>
      DuplicateIsInvalid(g, id);
  }

  lemma {:induction false} DuplicateIsInvalid(g: GraphValue, id: NodeRef)
    requires FirstDefect(g, DuplicateRef(id))
    ensures !UniqueIds(g.nodes)
  {
    var j :| 0 <= j < |g.nodes| && g.nodes[j].id == id && UniqueIds(g.nodes[..j]) && id in Ids(g.nodes[..j]);
    var i :| 0 <= i < j && g.nodes[..j][i].id == id;
    assert g.nodes[i].id == g.nodes[j].id;
  }

  lemma {:induction false} CleanStopsAtFailure(ops: seq<OpPayload>, g: GraphValue, m: nat, k: nat)
    requires m <= |ops| && k < |ops| && CleanUpTo(ops, m, g) && !Valid(Fold(ops[..k + 1], g))
    ensures m <= k
  {
  }

  lemma {:induction false} HoldsStopsAtFailure(ps: seq<Precondition>, g: GraphValue, hash: GraphNode -> string,
                                               m: nat, k: nat)
    requires m <= |ps| && k < |ps| && AllHold(ps[..m], g, hash) && !Holds(ps[k], g, hash)
    ensures m <= k
  {
  }

  /** Which end the transaction comes to is decided by the base, the preconditions and the
      intermediate graphs, in that order. */
  lemma {:induction false} SettlesCases(cs: CanonicalChangeSet, g: GraphValue, live: SnapshotId,
                                        hash: GraphNode -> string, o: Outcome, g': GraphValue)
    requires Settles(cs, g, live, hash, o, g')
    ensures o.RebaseRequired? <==> cs.base != live
    ensures cs.base == live ==> (AllHold(cs.preconditions, g, hash) <==> !(o.Failed? && o.reason.PreconditionFailed?))
    ensures cs.base == live && AllHold(cs.preconditions, g, hash) ==> (o.Applied? <==> CleanUpTo(cs.ops, |cs.ops|, g))
  {
    match o
    case Failed(InvariantViolated(err)) =>
      var k: nat :| FailsAt(cs.ops, g, k, err);
      assert !Valid(Fold(cs.ops[..k + 1], g));
    case _ =>
  }

  lemma {:induction false} FailsAtUnique(ops: seq<OpPayload>, g: GraphValue, k: nat, a: ValidationError, m: nat,
                                         b: ValidationError)
    requires FailsAt(ops, g, k, a) && FailsAt(ops, g, m, b)
    ensures a == b
  {
    CleanStopsAtFailure(ops, g, m, k);
    CleanStopsAtFailure(ops, g, k, m);
    FirstDefectUnique(Fold(ops[..k + 1], g), a, b);
  }

  lemma {:induction false} FailsPreconditionUnique(ps: seq<Precondition>, g: GraphValue, hash: GraphNode -> string,
                                                   a: Precondition, b: Precondition)
    requires FailsPrecondition(ps, g, hash, a) && FailsPrecondition(ps, g, hash, b)
    ensures a == b
  {
    var k :| 0 <= k < |ps| && ps[k] == a && !Holds(a, g, hash) && AllHold(ps[..k], g, hash);
    var m :| 0 <= m < |ps| && ps[m] == b && !Holds(b, g, hash) && AllHold(ps[..m], g, hash);
    HoldsStopsAtFailure(ps, g, hash, m, k);
    HoldsStopsAtFailure(ps, g, hash, k, m);
  }

  /** The outcome and the resulting graph are functions of the inputs. */
  lemma {:induction false} SettlesDeterministic(cs: CanonicalChangeSet, g: GraphValue, live: SnapshotId,
                                                hash: GraphNode -> string, o1: Outcome, g1: GraphValue, o2: Outcome,
                                                g2: GraphValue)
    requires Settles(cs, g, live, hash, o1, g1) && Settles(cs, g, live, hash, o2, g2)
    ensures o1 == o2 && g1 == g2
  {
    SettlesCases(cs, g, live, hash, o1, g1);
    SettlesCases(cs, g, live, hash, o2, g2);
    if o1.Failed? {
      match o1.reason
      case PreconditionFailed(p) =>
        FailsPreconditionUnique(cs.preconditions, g, hash, p, o2.reason.precondition);
      case InvariantViolated(a) =>
        var k: nat :| FailsAt(cs.ops, g, k, a);
        var m: nat :| FailsAt(cs.ops, g, m, o2.reason.error);
        FailsAtUnique(cs.ops, g, k, a, m, o2.reason.error);
    }
  }

  /** Every operation finds what it needs when its turn comes. */
  ghost predicate AllEnabled(ops: seq<OpPayload>, g: GraphValue) {
    forall k :: 0 <= k < |ops| ==> Enabled(ops[k], Fold(ops[..k], g))
  }

  lemma {:induction false} CleanIffEnabled(ops: seq<OpPayload>, k: nat, g: GraphValue)
    requires Valid(g) && k <= |ops|
    ensures CleanUpTo(ops, k, g) <==> forall i :: 0 <= i < k ==> Enabled(ops[i], Fold(ops[..i], g))
    decreases k
  {
    if k > 0 {
      CleanIffEnabled(ops, k - 1, g);
      FoldLast(ops, k - 1, g);
      assert k == 1 ==> ops[..k - 1] == [];
      if CleanUpTo(ops, k - 1, g) {
        StepValid(ops[k - 1], Fold(ops[..k - 1], g));
      }
      if CleanUpTo(ops, k, g) {
        assert CleanUpTo(ops, k - 1, g);
      }
    }
  }

  /** On a valid graph with a matching base and satisfied preconditions, a change set is
      applied if and only if every operation is enabled at its turn. */
  lemma {:induction false} AppliedIffEnabled(cs: CanonicalChangeSet, g: GraphValue, live: SnapshotId,
                                             hash: GraphNode -> string, outcome: Outcome, g': GraphValue)
    requires Settles(cs, g, live, hash, outcome, g')
    requires Valid(g) && cs.base == live && AllHold(cs.preconditions, g, hash)
    ensures outcome.Applied? <==> AllEnabled(cs.ops, g)
  {
    CleanIffEnabled(cs.ops, |cs.ops|, g);
    if !outcome.Applied? {
      var k: nat :| FailsAt(cs.ops, g, k, outcome.reason.error);
      assert !CleanUpTo(cs.ops, |cs.ops|, g);
    }
  }

  // ---------------------------------------------------------------- whole runs

  /** One attempt in a history of attempts against a single graph. */
  datatype Attempt = Attempt(cs: CanonicalChangeSet, live: SnapshotId, outcome: Outcome)

  ghost predicate History(attempts: seq<Attempt>, graphs: seq<GraphValue>, hash: GraphNode -> string) {
    && |graphs| == |attempts| + 1
    && forall i :: 0 <= i < |attempts| ==>
         Settles(attempts[i].cs, graphs[i], attempts[i].live, hash, attempts[i].outcome, graphs[i + 1])
  }

  /** All payloads of the applied change sets, in order. */
  function CommittedOps(attempts: seq<Attempt>): seq<OpPayload> {
    if attempts == [] then []
    else (if attempts[0].outcome.Applied? then attempts[0].cs.ops else []) + CommittedOps(attempts[1..])
  }

  /** Over every run a valid graph stays valid, and the current graph is the fold of exactly
      the payloads of the applied change sets. */
  lemma {:induction false} RunIsFoldOfCommitted(attempts: seq<Attempt>, graphs: seq<GraphValue>,
                                                hash: GraphNode -> string)
    requires History(attempts, graphs, hash)
    ensures graphs[|attempts|] == Fold(CommittedOps(attempts), graphs[0])
    ensures Valid(graphs[0]) ==> forall i :: 0 <= i < |graphs| ==> Valid(graphs[i])
    decreases |attempts|
  {
    if attempts != [] {
      var a := attempts[0];
      SettlesKeepsValidity(a.cs, graphs[0], a.live, hash, a.outcome, graphs[1]);
      forall i | 0 <= i < |attempts[1..]|
        ensures Settles(attempts[1..][i].cs, graphs[1..][i], attempts[1..][i].live, hash,
                        attempts[1..][i].outcome, graphs[1..][i + 1])
      {
        assert attempts[1..][i] == attempts[i + 1];
        assert graphs[1..][i] == graphs[i + 1];
        assert graphs[1..][i + 1] == graphs[i + 2];
      }
      RunIsFoldOfCommitted(attempts[1..], graphs[1..], hash);
      FoldConcat(if a.outcome.Applied? then a.cs.ops else [], CommittedOps(attempts[1..]), graphs[0]);
      forall i | 0 <= i < |graphs| && Valid(graphs[0])
        ensures Valid(graphs[i])
      {
        assert i > 0 ==> graphs[i] == graphs[1..][i - 1];
      }
    }
  }

  // ---------------------------------------------------------------- optimistic concurrency

  /** The counter advances after each applied attempt and at no other time. */
  ghost predicate Counted(attempts: seq<Attempt>) {
    forall i :: 0 < i < |attempts| ==>
      attempts[i].live
      == if attempts[i - 1].outcome.Applied? then Next(attempts[i - 1].live) else attempts[i - 1].live
  }

  /** Applied attempts among the first `n`. */
  function AppliedBefore(attempts: seq<Attempt>, n: nat): nat
    requires n <= |attempts|
  {
    if n == 0 then 0 else AppliedBefore(attempts, n - 1) + if attempts[n - 1].outcome.Applied? then 1 else 0
  }

  lemma {:induction false} NextAfterMod(a: nat)
    ensures Next(a % U64_MODULUS) == (a + 1) % U64_MODULUS
  {
  }

  lemma {:induction false} ModularGap(a: nat, d: nat)
    requires 0 < d < U64_MODULUS
    ensures (a + d) % U64_MODULUS != a % U64_MODULUS
  {
  }

  lemma {:induction false} LiveCounts(attempts: seq<Attempt>, n: nat)
    requires Counted(attempts) && n < |attempts|
    ensures attempts[n].live == (attempts[0].live + AppliedBefore(attempts, n)) % U64_MODULUS
  {
    if n > 0 {
      LiveCounts(attempts, n - 1);
      NextAfterMod(attempts[0].live + AppliedBefore(attempts, n - 1));
    }
  }

  lemma {:induction false} AppliedMonotone(attempts: seq<Attempt>, m: nat, n: nat)
    requires m <= n <= |attempts|
    ensures AppliedBefore(attempts, m) <= AppliedBefore(attempts, n)
  {
    if m < n {
      AppliedMonotone(attempts, m, n - 1);
    }
  }

  /** Plain application under a counter: the applied change set that has `k` before it was written
      against the initial id plus `k`; a change set against any other id is sent back with the
      live one; and no two with the same base are applied, as long as the counter has not wrapped. */
  lemma {:induction false} AppliedInBaseOrder(attempts: seq<Attempt>, graphs: seq<GraphValue>,
                                              hash: GraphNode -> string, j: nat)
    requires History(attempts, graphs, hash) && Counted(attempts) && j < |attempts|
    ensures var live := (attempts[0].live + AppliedBefore(attempts, j)) % U64_MODULUS;
            && (attempts[j].outcome.Applied? ==> attempts[j].cs.base == live)
            && (attempts[j].cs.base != live <==> attempts[j].outcome == RebaseRequired(live))
    ensures attempts[j].outcome.Applied? && AppliedBefore(attempts, j) < U64_MODULUS ==>
              forall i :: 0 <= i < j && attempts[i].outcome.Applied? ==> attempts[i].cs.base != attempts[j].cs.base
  {
    LiveCounts(attempts, j);
    SettlesCases(attempts[j].cs, graphs[j], attempts[j].live, hash, attempts[j].outcome, graphs[j + 1]);
    if attempts[j].outcome.Applied? && AppliedBefore(attempts, j) < U64_MODULUS {
      forall i | 0 <= i < j && attempts[i].outcome.Applied? ensures attempts[i].cs.base != attempts[j].cs.base {
        LiveCounts(attempts, i);
        SettlesCases(attempts[i].cs, graphs[i], attempts[i].live, hash, attempts[i].outcome, graphs[i + 1]);
        AppliedMonotone(attempts, i + 1, j);
        var earlier := AppliedBefore(attempts, i);
        ModularGap(attempts[0].live + earlier, AppliedBefore(attempts, j) - earlier);
      }
    }
  }
}
