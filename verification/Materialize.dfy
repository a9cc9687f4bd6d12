/** From parsed operations to graph payloads, and what that guarantees about applying them. */
module Materialize {
  import opened Base
  import opened Graph
  import opened Payload
  import opened Transaction
  import opened Phases
  import opened Verbs
  import Order

  function Get(args: OpArgs, key: string): Option<string> {
    if key in args then Some(args[key]) else None
  }

  // ---------------------------------------------------------------- argument helpers

  /** `verb` without `prefix_`, or `prefix` itself when nothing is left. */
  function VerbSuffix(verb: string, prefix: string): string {
    if prefix + "_" <= verb && |verb| > |prefix| + 1 then verb[|prefix| + 1..] else prefix
  }

  function EdgeKindOf(relation: string): EdgeKind {
    if relation == "calls" then Calls
    else if relation == "reads" then Reads
    else if relation == "writes" then Writes
    else if relation == "emits" then Emits
    else if relation == "proves" then Proves
    else if relation == "breaks_if_changed" then BreaksIfChanged
    else DependsOn
  }

  /** The last dot-separated segment of an id. */
  function LastSegment(id: string): (r: string)
    ensures '.' !in r && |r| <= |id| && r == id[|id| - |r|..]
    ensures |r| < |id| ==> id[|id| - |r| - 1] == '.'
  {
    if id == [] || id[|id| - 1] == '.' then []
    else
      var init := id[..|id| - 1];
      assert id == init + [id[|id| - 1]];
      LastSegment(init) + [id[|id| - 1]]
  }

  /** `k` is the least key of `args` other than target, source and id. */
  ghost predicate IsMetadataKey(args: OpArgs, k: string) {
    && k in args && k !in {"target", "source", "id"}
    && forall j :: j in args && j !in {"target", "source", "id"} ==> Order.StrLe(k, j)
  }

  /** The first argument in key order that is not an identity. */
  ghost function MetadataArg(args: OpArgs): (r: Option<(string, string)>)
    ensures r.Some? ==> IsMetadataKey(args, r.value.0) && r.value.1 == args[r.value.0]
    ensures r.None? ==> forall j :: j in args ==> j in {"target", "source", "id"}
  {
    var keys := args.Keys - {"target", "source", "id"};
    if keys == {} then
      assert forall j :: j in args ==> j in keys || j in {"target", "source", "id"};
      None
    else
      LeastKeyExists(keys);
      var k :| k in keys && forall j :: j in keys ==> Order.StrLe(k, j);
      Some((k, args[k]))
  }

  lemma {:induction false} LeastKeyExists(keys: set<string>)
    requires keys != {}
    ensures exists k :: k in keys && forall j :: j in keys ==> Order.StrLe(k, j)
  {
    var x :| x in keys;
    if keys == {x} {
      Order.StrLeRefl(x);
    } else {
      LeastKeyExists(keys - {x});
      var k :| k in keys - {x} && forall j :: j in keys - {x} ==> Order.StrLe(k, j);
      Order.StrLeTotal(k, x);
      var best := if Order.StrLe(k, x) then k else x;
      forall j | j in keys ensures Order.StrLe(best, j) {
        if j == x {
          Order.StrLeRefl(x);
        } else if best == x {
          Order.StrLeTrans(x, k, j);
        }
      }
    }
  }

  // ---------------------------------------------------------------- payloads

  function EditOf(target: Option<string>, edit: Option<NodeEdit>): OpPayload {
    if target.Some? && edit.Some? then EditByName(target.value, edit.value) else Noop
  }

  function WorkflowPayload(args: OpArgs, state: WorkflowState): OpPayload {
    EditOf(Get(args, "target").OrElse(Get(args, "from")).OrElse(Get(args, "scope")), Some(SetWorkflowState(state)))
  }

  function EdgePayload(args: OpArgs, remove: bool): OpPayload {
    match (Get(args, "source"), Get(args, "target"))
    case (Some(s), Some(t)) =>
      var kind := match Get(args, "relation") case Some(r) => EdgeKindOf(r) case None => DependsOn;
      if remove then RemoveEdgeByName(s, t, kind) else AddEdgeByName(s, t, kind)
    case _ => Noop
  }

  /** The ref of a node created at position `idx`: the position as a `u32`, so it wraps. */
  function RefAt(idx: nat): NodeRef {
    idx % 0x1_0000_0000
  }

  /** The node a `create_*` verb makes; `digest` is the hash of a predicate text. */
  function CreatedNode(idx: nat, verb: string, id: string, args: OpArgs,
                       digest: string -> string): (r: Option<GraphNode>)
    ensures r.Some? ==> r.value.id == RefAt(idx) && r.value.name == id
    ensures r.Some? <==> verb in {"create_module", "create_type", "create_function", "create_test", "create_capability"}
  {
    var ref := RefAt(idx);
    if verb == "create_module" then Some(NewNode(ref, Module, id))
    else if verb == "create_type" then
      Some(NewNode(ref, Type, id).(typeFacts := Some(TypeFacts(LastSegment(id), []))))
    else if verb == "create_function" then
      var n := NewNode(ref, Function, id).(returnType := Get(args, "return"), bodyExpr := Get(args, "body"));
      Some(if "value" in args
           then var p := "literal:i64=" + args["value"]; n.(runtimeChecks := Some([RuntimeCheckMeta(p, digest(p))]))
           else n)
    else if verb == "create_test" then
      Some(NewNode(ref, Test, id).(returnType := Some(Get(args, "return").GetOr("Bool")),
        bodyExpr := Get(args, "body")))
    else if verb == "create_capability" then
      Some(NewNode(ref, Capability, id).(capabilityReqs := Some([id])))
    else None
  }

  function WithArg(args: OpArgs, key: string, make: string -> NodeEdit): OpPayload {
    EditOf(Get(args, "target"), if key in args then Some(make(args[key])) else None)
  }

  /** The payload of one parsed operation at position `idx`. An operation without enough
      arguments becomes a no-op. */
  ghost function MaterializePayload(idx: nat, kind: ChangeSetOp, verb: string, args: OpArgs,
                                    digest: string -> string): (r: OpPayload)
    ensures !r.AddEdge? && !r.RemoveNode? && !r.SetNodeName?
    ensures r.CreateNode? ==> kind == Create && "id" in args && r.node.name == args["id"] && r.node.id == RefAt(idx)
  {
    match kind
    case Create =>
      (match Get(args, "id")
       case Some(id) =>
         (match CreatedNode(idx, verb, id, args, digest)
          case Some(n) => CreateNode(n)
          case None => Noop)
       case None => Noop)
    case Set =>
      if verb == "set_return" then WithArg(args, "type", ty => SetReturn(ty))
      else if verb == "set_body" then WithArg(args, "body", b => SetBody(b))
      else MetadataPayload(args)
    case Replace => MetadataPayload(args)
    case Add =>
      if verb == "add_param" then
        EditOf(Get(args, "target"), if "name" in args && "type" in args
          then Some(AddParam(args["name"], args["type"])) else None)
      else if verb == "add_effect" then WithArg(args, "effect", e => AddEffect(e))
      else if verb == "add_contract" then
        EditOf(Get(args, "target"), if "kind" in args && "rule" in args
          then Some(AddContract(args["kind"], args["rule"])) else None)
      else Noop
    case Remove =>
      if verb == "remove_effect" then WithArg(args, "effect", e => RemoveEffect(e))
      else if verb == "remove_contract" then WithArg(args, "rule", x => RemoveContract(x))
      else if "remove_" <= verb then RemovePayload(args)
      else Noop
    case Delete => RemovePayload(args)
    case Rename =>
      (match (Get(args, "target"), Get(args, "name"))
       case (Some(t), Some(n)) => RenameNodeByName(t, n)
       case _ => Noop)
    case Move => WithArg(args, "to", v => SetMetadata("module", v))
    case Connect => EdgePayload(args, false)
    case Disconnect => EdgePayload(args, true)
    case Grant => WithArg(args, "capability", c => AddCapabilityReq(c))
    case Revoke => WithArg(args, "capability", c => RemoveCapabilityReq(c))
    case Expose => EditOf(Get(args, "target"), Some(SetVisibility(Public)))
    case Hide => EditOf(Get(args, "target"), Some(SetVisibility(Private)))
    case Bind =>
      EditOf(Get(args, "capability"),
             if "capability" in args && "handler" in args
             then Some(AddBinding(Binding(args["capability"], args["handler"], Get(args, "profile")))) else None)
    case Infer =>
      EditOf(Get(args, "target"), Some(AddInferredFact(InferredFact(
        VerbSuffix(verb, "infer"),
          Get(args, "type").OrElse(Get(args, "effect")).OrElse(Get(args, "value")).GetOr("pending")))))
    case Derive => EditOf(Get(args, "target"), Some(AddDerivedImpl(VerbSuffix(verb, "derive"))))
    case Generate =>
      EditOf(Get(args, "target"), Some(AddGeneratedArtifact(GeneratedArtifact(
        VerbSuffix(verb, "generate"), Get(args, "from").OrElse(Get(args, "language")).OrElse(Get(args, "audience"))))))
    case Assert =>
      EditOf(Get(args, "target"), Some(AddAssertion(Assertion(
        VerbSuffix(verb, "assert"), Get(args, "hash").OrElse(Get(args, "value")).GetOr("true")))))
    case Lock => WorkflowPayload(args, Locked)
    case Refactor => WorkflowPayload(args, Refactoring)
    case Migrate => WorkflowPayload(args, Migrating)
    case Approve => WorkflowPayload(args, Approved)
    case Reject => WorkflowPayload(args, Rejected)
    case Verify => WorkflowPayload(args, Verified)
    case Deprecate => WithArg(args, "replacement", v => SetMetadata("deprecated_replacement", v))
    case Annotate =>
      EditOf(Get(args, "target"), if "key" in args && "value" in args
        then Some(SetMetadata(args["key"], args["value"])) else None)
  }

  ghost function MetadataPayload(args: OpArgs): OpPayload {
    match MetadataArg(args)
    case Some(kv) => EditOf(Get(args, "target"), Some(SetMetadata(kv.0, kv.1)))
    case None => Noop
  }

  function RemovePayload(args: OpArgs): OpPayload {
    match Get(args, "target")
    case Some(t) => RemoveNodeByName(t)
    case None => Noop
  }

  // ---------------------------------------------------------------- the canonical list

  /** Payloads of operations already in canonical order, numbered by position from `start`. */
  ghost function MaterializeAll(ops: seq<ParsedOp>, start: nat, digest: string -> string): (r: seq<Op>)
    ensures |r| == |ops|
    ensures forall i :: 0 <= i < |ops| ==>
      r[i] == Op(ops[i].kind, MaterializePayload(start + i, ops[i].kind, ops[i].verb, ops[i].args, digest))
  {
    seq(|ops|, i requires 0 <= i < |ops| =>
      Op(ops[i].kind, MaterializePayload(start + i, ops[i].kind, ops[i].verb, ops[i].args, digest)))
  }

  /** Fewer than 2^32 operations, none creating at a position already used as a ref, are
      ready: created refs are new and distinct. */
  lemma {:induction false} MaterializedReady(ops: seq<ParsedOp>, digest: string -> string, g: GraphValue)
    requires |ops| <= 0x1_0000_0000
    requires forall i :: 0 <= i < |ops| && ops[i].kind == Create ==> i !in Ids(g.nodes)
    ensures Ready(MaterializeAll(ops, 0, digest), g)
  {
    var all := MaterializeAll(ops, 0, digest);
    forall i | 0 <= i < |ops| {
      CreatedAt(all, ops, digest, i);
    }
  }

  lemma {:induction false} CreatedAt(all: seq<Op>, ops: seq<ParsedOp>, digest: string -> string, i: nat)
    requires all == MaterializeAll(ops, 0, digest) && i < |ops| <= 0x1_0000_0000
    ensures !all[i].payload.AddEdge?
    ensures all[i].payload.CreateNode? ==> ops[i].kind == Create && all[i].payload.node.id == i
  {
  }

  /** A materialised change set with a matching base and no failing precondition is always
      applied to a valid graph whose refs avoid the creating positions. */
  lemma {:induction false} MaterializedApplies(ops: seq<ParsedOp>, digest: string -> string, base: SnapshotId,
                                               pre: seq<Precondition>, g: GraphValue, hash: GraphNode -> string,
                                               o: Outcome, g': GraphValue)
    requires Valid(g) && AllHold(pre, g, hash) && |ops| <= 0x1_0000_0000
    requires forall i :: 0 <= i < |ops| && ops[i].kind == Create ==> i !in Ids(g.nodes)
    requires Settles(CanonicalChangeSet(base, pre, Payloads(MaterializeAll(ops, 0, digest))), g, base, hash, o, g')
    ensures o == Applied && Valid(g')
  {
    MaterializedReady(ops, digest, g);
    var all := MaterializeAll(ops, 0, digest);
    ReadyApplies(base, pre, all, g, base, hash, o, g');
    SettlesKeepsValidity(CanonicalChangeSet(base, pre, Payloads(all)), g, base, hash, o, g');
  }

  /** Exactly when a materialised change set is applied: every creating operation finds its
      position unused as a ref at its turn. Nothing else can fail. */
  lemma {:induction false} MaterializedAppliedIff(ops: seq<ParsedOp>, digest: string -> string, base: SnapshotId,
                                                  pre: seq<Precondition>, g: GraphValue, hash: GraphNode -> string,
                                                  o: Outcome, g': GraphValue)
    requires Valid(g) && AllHold(pre, g, hash)
    requires Settles(CanonicalChangeSet(base, pre, Payloads(MaterializeAll(ops, 0, digest))), g, base, hash, o, g')
    ensures var ps := Payloads(MaterializeAll(ops, 0, digest));
            o.Applied? <==> forall i :: 0 <= i < |ps| && ps[i].CreateNode? ==> RefAt(i) !in Ids(Fold(ps[..i], g).nodes)
  {
    var all := MaterializeAll(ops, 0, digest);
    var ps := Payloads(all);
    AppliedIffEnabled(CanonicalChangeSet(base, pre, ps), g, base, hash, o, g');
    forall i | 0 <= i < |ps|
      ensures Enabled(ps[i], Fold(ps[..i], g)) <==> (ps[i].CreateNode? ==> RefAt(i) !in Ids(Fold(ps[..i], g).nodes))
    {
      assert ps[i] == all[i].payload;
    }
  }

  /** One of the first `n` payloads creates a node with that ref. */
  ghost predicate CreatesBefore(ps: seq<OpPayload>, n: nat, ref: NodeRef)
    requires n <= |ps|
  {
    exists j :: 0 <= j < n && ps[j].CreateNode? && ps[j].node.id == ref
  }

  lemma {:induction false} CreationsAccumulate(ps: seq<OpPayload>, n: nat, g: GraphValue, ref: NodeRef)
    requires n <= |ps| && forall j :: 0 <= j < n ==> ps[j].CreateNode? || ps[j].Noop?
    ensures ref in Ids(Fold(ps[..n], g).nodes) <==> ref in Ids(g.nodes) || CreatesBefore(ps, n, ref)
  {
    if n > 0 {
      CreationsAccumulate(ps, n - 1, g, ref);
      var last := ps[n - 1];
      assert ps[..n] == ps[..n - 1] + [last];
      FoldConcat(ps[..n - 1], [last], g);
      var h := Fold(ps[..n - 1], g);
      assert Fold([last], h) == Step(last, h);
      StepIds(last, h);
    } else {
      assert ps[..n] == [];
    }
  }

  // ---------------------------------------------------------------- change sets in canonical order

  predicate ParsedLe(a: ParsedOp, b: ParsedOp) {
    PhaseOrder(a.kind) <= PhaseOrder(b.kind)
  }

  /** The parsed operations, stably sorted by phase. */
  function Canonical(ops: seq<ParsedOp>): seq<ParsedOp> {
    Order.Sort(ops, ParsedLe)
  }

  /** The payloads of a parsed change set: sorted by phase, then numbered by position. */
  ghost function CanonicalPayloads(ops: seq<ParsedOp>, digest: string -> string): (r: seq<OpPayload>)
    ensures |r| == |ops|
  {
    Payloads(MaterializeAll(Canonical(ops), 0, digest))
  }

  /** What a creating position needs: its ref is neither in the graph nor created before it. */
  ghost predicate Collides(ps: seq<OpPayload>, g: GraphValue, i: nat)
    requires i < |ps|
  {
    ps[i].CreateNode? && (RefAt(i) in Ids(g.nodes) || CreatesBefore(ps, i, RefAt(i)))
  }

  /** In canonical order creations come first, so that the outcome is decided before anything runs: a
      change set is applied exactly when the creating positions are neither refs of the graph nor
      equal to one another. */
  lemma {:induction false} CanonicalAppliedIff(ops: seq<ParsedOp>, digest: string -> string, base: SnapshotId,
                                               pre: seq<Precondition>, g: GraphValue, hash: GraphNode -> string,
                                               o: Outcome, g': GraphValue)
    requires Valid(g) && AllHold(pre, g, hash)
    requires Settles(CanonicalChangeSet(base, pre, CanonicalPayloads(ops, digest)), g, base, hash, o, g')
    ensures var ps := CanonicalPayloads(ops, digest);
            o.Applied? <==> forall i :: 0 <= i < |ps| ==> !Collides(ps, g, i)
  {
    var ps := CanonicalPayloads(ops, digest);
    MaterializedAppliedIff(Canonical(ops), digest, base, pre, g, hash, o, g');
    forall i | 0 <= i < |ps| && ps[i].CreateNode?
      ensures RefAt(i) in Ids(Fold(ps[..i], g).nodes) <==> Collides(ps, g, i)
    {
      CreationsFirst(ops, digest, i);
      CreationsAccumulate(ps, i, g, RefAt(i));
    }
  }

  lemma {:induction false} CreationsFirst(ops: seq<ParsedOp>, digest: string -> string, i: nat)
    requires i < |ops| && CanonicalPayloads(ops, digest)[i].CreateNode?
    ensures var ps := CanonicalPayloads(ops, digest);
            forall j :: 0 <= j < i ==> ps[j].CreateNode? || ps[j].Noop?
  {
    var sorted := Canonical(ops);
    assert Order.TotalPreorder(ParsedLe);
    Order.SortSorted(ops, ParsedLe);
    var all := MaterializeAll(sorted, 0, digest);
    assert Payloads(all)[i] == all[i].payload;
    forall j | 0 <= j < i ensures Payloads(all)[j].CreateNode? || Payloads(all)[j].Noop? {
      assert ParsedLe(sorted[j], sorted[i]);
      CreationIsNode(j, sorted[j], digest);
    }
  }

  lemma {:induction false} CreationIsNode(i: nat, op: ParsedOp, digest: string -> string)
    requires PhaseOrder(op.kind) == 0
    ensures var p := MaterializePayload(i, op.kind, op.verb, op.args, digest); p.CreateNode? || p.Noop?
  {
    assert op.kind == Create;
  }

  /** The first change set always goes in: on the empty graph up to 2^32 operations are applied. */
  lemma {:induction false} FirstChangeSetApplies(ops: seq<ParsedOp>, digest: string -> string, base: SnapshotId,
                                                 hash: GraphNode -> string, o: Outcome, g': GraphValue)
    requires |ops| <= 0x1_0000_0000
    requires Settles(CanonicalChangeSet(base, [], CanonicalPayloads(ops, digest)), EMPTY_GRAPH, base, hash, o, g')
    ensures o == Applied && Valid(g') && g' == Fold(CanonicalPayloads(ops, digest), EMPTY_GRAPH)
  {
    MaterializedApplies(Canonical(ops), digest, base, [], EMPTY_GRAPH, hash, o, g');
  }

  /** The defect of a creation whose ref is taken. */
  lemma {:induction false} CollisionDefect(g: GraphValue, n: GraphNode)
    requires Valid(g) && n.id in Ids(g.nodes)
    ensures FirstDefect(Step(CreateNode(n), g), DuplicateRef(n.id))
  {
    var after := g.nodes + [n];
    assert after[..|g.nodes|] == g.nodes && after[|g.nodes|] == n;
  }

  /** A materialised change set fails in one way only: with the ref of the first creating position
      that finds its ref taken. */
  lemma {:induction false} FailsByCollision(ops: seq<ParsedOp>, digest: string -> string, base: SnapshotId,
                                            pre: seq<Precondition>, g: GraphValue, hash: GraphNode -> string,
                                            o: Outcome, g': GraphValue)
    requires Valid(g) && AllHold(pre, g, hash) && !o.Applied?
    requires Settles(CanonicalChangeSet(base, pre, CanonicalPayloads(ops, digest)), g, base, hash, o, g')
    ensures var ps := CanonicalPayloads(ops, digest);
            exists k :: && 0 <= k < |ps| && Collides(ps, g, k) && o == Failed(InvariantViolated(DuplicateRef(RefAt(k))))
                        && forall i :: 0 <= i < k ==> !Collides(ps, g, i)
  {
    var ps := CanonicalPayloads(ops, digest);
    var k: nat :| FailsAt(ps, g, k, o.reason.error);
    CleanIffEnabled(ps, k, g);
    ReachedValid(ps, k, g);
    FoldLast(ps, k, g);
    StepValid(ps[k], Fold(ps[..k], g));
    var all := MaterializeAll(Canonical(ops), 0, digest);
    forall i | 0 <= i <= k ensures Collides(ps, g, i) <==> !Enabled(ps[i], Fold(ps[..i], g)) {
      assert ps[i] == all[i].payload;
      if ps[i].CreateNode? {
        CreationsFirst(ops, digest, i);
        CreationsAccumulate(ps, i, g, RefAt(i));
      }
    }
    CollisionDefect(Fold(ps[..k], g), ps[k].node);
    FirstDefectUnique(Fold(ps[..k + 1], g), o.reason.error, DuplicateRef(ps[k].node.id));
  }

  lemma {:induction false} ReachedValid(ps: seq<OpPayload>, k: nat, g: GraphValue)
    requires Valid(g) && k <= |ps| && CleanUpTo(ps, k, g)
    ensures Valid(Fold(ps[..k], g))
  {
    assert k == 0 ==> ps[..k] == [];
  }

  lemma {:induction false} CreatedStays(ps: seq<OpPayload>, n: nat, g: GraphValue, i: nat)
    requires i < n <= |ps| && ps[i].CreateNode?
    requires forall j :: i < j < n ==> !ps[j].RemoveNode? && !ps[j].RemoveNodeByName?
    ensures ps[i].node.id in Ids(Fold(ps[..n], g).nodes)
  {
    FoldLast(ps, n - 1, g);
    StepIds(ps[n - 1], Fold(ps[..n - 1], g));
    if i < n - 1 {
      CreatedStays(ps, n - 1, g, i);
    }
  }

  /** Positions are not identities: once a change set that creates at a position and removes nothing was
      applied, every change set that creates at the same position fails on a ref that is taken. */
  lemma {:induction false} SecondCreationCollides(first: seq<ParsedOp>, second: seq<ParsedOp>,
                                                  digest: string -> string, i: nat, base: SnapshotId,
                                                  live: SnapshotId, pre: seq<Precondition>, hash: GraphNode -> string,
                                                  g: GraphValue, g1: GraphValue, o: Outcome, g2: GraphValue)
    requires Valid(g) && i < |first| && i < |second|
    requires var ps, qs := CanonicalPayloads(first, digest), CanonicalPayloads(second, digest);
             ps[i].CreateNode? && qs[i].CreateNode? && forall j :: 0 <= j < |ps| ==> !ps[j].RemoveNodeByName?
    requires Settles(CanonicalChangeSet(base, pre, CanonicalPayloads(first, digest)), g, base, hash, Applied, g1)
    requires Settles(CanonicalChangeSet(live, [], CanonicalPayloads(second, digest)), g1, live, hash, o, g2)
    ensures o.Failed? && o.reason.InvariantViolated? && o.reason.error.DuplicateRef? && g2 == g1
  {
    var ps, qs := CanonicalPayloads(first, digest), CanonicalPayloads(second, digest);
    SettlesKeepsValidity(CanonicalChangeSet(base, pre, ps), g, base, hash, Applied, g1);
    var all := MaterializeAll(Canonical(first), 0, digest);
    assert forall j :: 0 <= j < |ps| ==> ps[j] == all[j].payload;
    assert ps[..|ps|] == ps;
    CreatedStays(ps, |ps|, g, i);
    CanonicalAppliedIff(second, digest, live, [], g1, hash, o, g2);
    assert Collides(qs, g1, i);
    FailsByCollision(second, digest, live, [], g1, hash, o, g2);
  }

  /** The `u32` cast wraps: positions 2^32 apart claim the same ref. */
  lemma {:induction false} PositionsWrap(idx: nat)
    ensures RefAt(idx + 0x1_0000_0000) == RefAt(idx)
  {
  }

  // ---------------------------------------------------------------- what the verbs mean

  /** The facets each phase writes. */
  function PhaseFacets(phase: nat): set<Facet> {
    if phase == 1 then {ReturnFacet, BodyFacet, TrustFacet, ParamFacet, EffectFacet, ContractFacet}
    else if phase == 2 then {CapabilityFacet, VisibilityFacet, BindingFacet}
    else if phase == 3 then {InferredFacet, DerivedFacet, ArtifactFacet}
    else if phase == 4 then {AssertionFacet, WorkflowFacet, TrustFacet, ReturnFacet, BodyFacet}
    else {}
  }

  lemma {:induction false} EditsStayInPhase(i: nat, op: ParsedOp, digest: string -> string)
    requires MaterializePayload(i, op.kind, op.verb, op.args, digest).EditByName?
    ensures FacetOf(MaterializePayload(i, op.kind, op.verb, op.args, digest).edit) in PhaseFacets(PhaseOrder(op.kind))
  {
  }

  lemma {:induction false} WorkflowEdits(i: nat, op: ParsedOp, digest: string -> string)
    requires MaterializePayload(i, op.kind, op.verb, op.args, digest).EditByName?
    requires PhaseOrder(op.kind) == 4 && op.kind != Annotate && op.kind != Deprecate
    ensures FacetOf(MaterializePayload(i, op.kind, op.verb, op.args, digest).edit) in {AssertionFacet, WorkflowFacet}
  {
  }

  /** Operations of different phases write the same facet only when a phase-1 operation and a
      phase-4 annotation or deprecation both write the trust tags, the return type or the body. */
  lemma {:induction false} PhasesWriteDifferentFacets(i: nat, a: ParsedOp, j: nat, b: ParsedOp,
                                                      digest: string -> string)
    requires PhaseOrder(a.kind) < PhaseOrder(b.kind)
    requires MaterializePayload(i, a.kind, a.verb, a.args, digest).EditByName?
    requires MaterializePayload(j, b.kind, b.verb, b.args, digest).EditByName?
    requires FacetOf(MaterializePayload(i, a.kind, a.verb, a.args, digest).edit)
             == FacetOf(MaterializePayload(j, b.kind, b.verb, b.args, digest).edit)
    ensures PhaseOrder(a.kind) == 1 && (b.kind == Annotate || b.kind == Deprecate)
    ensures FacetOf(MaterializePayload(i, a.kind, a.verb, a.args, digest).edit) in {TrustFacet, ReturnFacet, BodyFacet}
  {
    EditsStayInPhase(i, a, digest);
    EditsStayInPhase(j, b, digest);
    if PhaseOrder(b.kind) == 4 && b.kind != Annotate && b.kind != Deprecate {
      WorkflowEdits(j, b, digest);
    }
    PhaseFacetsOverlap(PhaseOrder(a.kind), PhaseOrder(b.kind),
                       FacetOf(MaterializePayload(i, a.kind, a.verb, a.args, digest).edit));
  }

  lemma {:induction false} PhaseFacetsOverlap(p: nat, q: nat, f: Facet)
    requires p < q && f in PhaseFacets(p) && f in PhaseFacets(q)
    ensures p == 1 && q == 4 && f in {TrustFacet, ReturnFacet, BodyFacet}
  {
  }

  lemma {:induction false} RemoveEdgeUndoesAddEdge(source: string, target: string, kind: EdgeKind, s: NodeRef,
                                                   t: NodeRef, g: GraphValue)
    requires Resolve(g.nodes, source) == Some(s) && Resolve(g.nodes, target) == Some(t)
    ensures Step(RemoveEdgeByName(source, target, kind), Step(AddEdgeByName(source, target, kind), g)) == g
            <==> forall e: GraphEdge :: e in g.edges ==> e.source != s || e.target != t || e.kind != kind
  {
    var keep := OtherThan(s, t, kind);
    var back := Step(RemoveEdgeByName(source, target, kind), Step(AddEdgeByName(source, target, kind), g));
    assert back == GraphValue(g.nodes, Retain(g.edges + [NewEdge(s, t, kind)], keep));
    RetainConcat(g.edges, [NewEdge(s, t, kind)], keep);
    assert back.edges == Retain(g.edges, keep);
    RetainMembers(g.edges, keep);
    if forall e: GraphEdge :: e in g.edges ==> keep(e) {
      RetainAll(g.edges, keep);
    }
  }

  /** `disconnect` undoes `connect` with the same arguments exactly when the graph had no
      edge of that kind between the two nodes. */
  lemma {:induction false} DisconnectUndoesConnect(args: OpArgs, s: NodeRef, t: NodeRef, g: GraphValue)
    requires "source" in args && Resolve(g.nodes, args["source"]) == Some(s)
    requires "target" in args && Resolve(g.nodes, args["target"]) == Some(t)
    ensures Step(EdgePayload(args, true), Step(EdgePayload(args, false), g)) == g
            <==> forall e: GraphEdge :: e in g.edges ==>
                   e.source != s || e.target != t
                   || e.kind != if "relation" in args then EdgeKindOf(args["relation"]) else DependsOn
  {
    var kind := if "relation" in args then EdgeKindOf(args["relation"]) else DependsOn;
    assert EdgePayload(args, true) == RemoveEdgeByName(args["source"], args["target"], kind);
    assert EdgePayload(args, false) == AddEdgeByName(args["source"], args["target"], kind);
    RemoveEdgeUndoesAddEdge(args["source"], args["target"], kind, s, t, g);
  }
}
