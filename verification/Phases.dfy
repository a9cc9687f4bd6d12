/** The canonical phase order of operations, and why sorting by phase keeps the meaning
    of a change set. */
module Phases {
  import opened Base
  import opened Graph
  import opened Payload
  import opened Transaction
  import opened Commutation
  import opened Clashes
  import Order

  datatype ChangeSetOp =
    | Create
    | Set | Add | Remove | Delete | Disconnect | Rename | Move | Replace
    | Connect | Bind | Expose | Hide | Grant | Revoke
    | Infer | Derive | Generate
    | Assert | Lock | Refactor | Migrate | Approve | Reject | Deprecate | Annotate | Verify

  /** Canonical phase ordinal: creation, mutation, relation, inference, workflow. */
  function PhaseOrder(op: ChangeSetOp): nat {
    match op
    case Create => 0
    case Set | Add | Remove | Delete | Disconnect | Rename | Move | Replace => 1
    case Connect | Bind | Expose | Hide | Grant | Revoke => 2
    case Infer | Derive | Generate => 3
    case Assert | Lock | Refactor | Migrate | Approve | Reject | Deprecate | Annotate | Verify => 4
  }

  /** An operation: its kind, which fixes its phase, and its payload. */
  datatype Op = Op(kind: ChangeSetOp, payload: OpPayload)

  predicate PhaseLe(a: Op, b: Op) {
    PhaseOrder(a.kind) <= PhaseOrder(b.kind)
  }

  /** `sorted_ops.sort_by_key(phase_order)`. */
  function PhaseSort(ops: seq<Op>): seq<Op> {
    Order.Sort(ops, PhaseLe)
  }

  function Payloads(ops: seq<Op>): (r: seq<OpPayload>)
    ensures |r| == |ops|
    ensures forall i :: 0 <= i < |ops| ==> r[i] == ops[i].payload
  {
    if ops == [] then [] else [ops[0].payload] + Payloads(ops[1..])
  }

  /** Canonical order is a stable sort: ordered by phase, nothing lost or invented, and the
      operations of each phase in their source order. */
  lemma {:induction false} PhaseSortIsStableSort(ops: seq<Op>, phase: nat)
    ensures multiset(PhaseSort(ops)) == multiset(ops)
    ensures Order.SortedBy(PhaseSort(ops), PhaseLe)
    ensures Retain(PhaseSort(ops), (o: Op) => PhaseOrder(o.kind) == phase)
            == Retain(ops, (o: Op) => PhaseOrder(o.kind) == phase)
  {
    assert Order.TotalPreorder(PhaseLe);
    Order.SortSorted(ops, PhaseLe);
    Order.SortStable(ops, PhaseLe, (o: Op) => PhaseOrder(o.kind) == phase);
  }

  // ---------------------------------------------------------------- lifting through the sort

  /** No edge is given by refs, and created refs are new to `g` and to each other. */
  ghost predicate Ready(ops: seq<Op>, g: GraphValue) {
    && (forall i :: 0 <= i < |ops| ==> !ops[i].payload.AddEdge? && FreshIn(ops[i].payload, g))
    && (forall i, j :: 0 <= i < j < |ops| && ops[i].payload.CreateNode? && ops[j].payload.CreateNode?
          ==> ops[i].payload.node.id != ops[j].payload.node.id)
  }

  /** The pairs the sort swaps, a later phase in front of an earlier one, commute. */
  ghost predicate InversionsCommute(ops: seq<Op>) {
    forall i, j :: 0 <= i < j < |ops| && PhaseOrder(ops[i].kind) > PhaseOrder(ops[j].kind)
      ==> Commuting(ops[i].payload, ops[j].payload)
  }

  lemma {:induction false} ReadyStep(ops: seq<Op>, g: GraphValue)
    requires ops != [] && Ready(ops, g) && Valid(g)
    ensures Valid(Step(ops[0].payload, g)) && Ready(ops[1..], Step(ops[0].payload, g)) && Ready(ops[1..], g)
  {
    StepValid(ops[0].payload, g);
    StepIds(ops[0].payload, g);
    assert forall i :: 0 <= i < |ops[1..]| ==> ops[1..][i] == ops[i + 1];
  }

  /** Readiness does not depend on the order of the operations. */
  lemma {:induction false} ReadyPermuted(a: seq<Op>, b: seq<Op>, g: GraphValue)
    requires multiset(a) == multiset(b) && Ready(a, g)
    ensures Ready(b, g)
  {
    forall i | 0 <= i < |b| ensures !b[i].payload.AddEdge? && FreshIn(b[i].payload, g) {
      assert b[i] in multiset(a);
    }
    forall i, j | 0 <= i < j < |b| && b[i].payload.CreateNode? && b[j].payload.CreateNode?
      ensures b[i].payload.node.id != b[j].payload.node.id
    {
      var k, m := DistinctPositions(a, b, i, j);
    }
  }

  /** The fold of the payloads, read directly off the operations. */
  function FoldOps(ops: seq<Op>, g: GraphValue): GraphValue {
    if ops == [] then g else FoldOps(ops[1..], Step(ops[0].payload, g))
  }

  lemma {:induction false} FoldOpsIsFold(ops: seq<Op>, g: GraphValue)
    ensures FoldOps(ops, g) == Fold(Payloads(ops), g)
    decreases |ops|
  {
    if ops != [] {
      FoldOpsIsFold(ops[1..], Step(ops[0].payload, g));
      assert Payloads(ops)[1..] == Payloads(ops[1..]);
    }
  }

  lemma {:induction false} FoldOpsCons(x: Op, s: seq<Op>, g: GraphValue)
    ensures FoldOps([x] + s, g) == FoldOps(s, Step(x.payload, g))
  {
    assert ([x] + s)[1..] == s;
  }

  /** Dropping the second of three parts of a ready list. */
  lemma {:induction false} ReadySkip(x: Op, y: Op, rest: seq<Op>, g: GraphValue)
    requires Valid(g) && Ready([x] + ([y] + rest), g)
    ensures Valid(Step(y.payload, g)) && Ready([x] + rest, Step(y.payload, g))
  {
    var all, r := [x] + ([y] + rest), [x] + rest;
    assert all[0] == x && all[1] == y;
    assert forall i :: 0 < i < |r| ==> r[i] == all[i + 1];
    StepValid(y.payload, g);
    StepIds(y.payload, g);
  }

  /** Moving an operation behind the earlier-phase operations it commutes with. */
  lemma {:induction false} InsertKeepsFold(x: Op, s: seq<Op>, g: GraphValue)
    requires Valid(g) && Ready([x] + s, g)
    requires forall j :: 0 <= j < |s| && PhaseOrder(x.kind) > PhaseOrder(s[j].kind) ==>
               Commuting(x.payload, s[j].payload)
    ensures FoldOps(Order.Insert(x, s, PhaseLe), g) == FoldOps([x] + s, g)
    decreases |s|
  {
    if s != [] && !PhaseLe(x, s[0]) {
      var y, rest := s[0], s[1..];
      assert s == [y] + rest;
      assert ([x] + s)[0] == x && ([x] + s)[1] == y;
      CommutingCommute(x.payload, y.payload, g);
      ReadySkip(x, y, rest, g);
      InsertKeepsFold(x, rest, Step(y.payload, g));
      calc {
        FoldOps(Order.Insert(x, s, PhaseLe), g);
        { FoldOpsCons(y, Order.Insert(x, rest, PhaseLe), g); }
        FoldOps(Order.Insert(x, rest, PhaseLe), Step(y.payload, g));
        FoldOps([x] + rest, Step(y.payload, g));
        { FoldOpsCons(x, rest, Step(y.payload, g)); }
        FoldOps(rest, Step(x.payload, Step(y.payload, g)));
        FoldOps(rest, Step(y.payload, Step(x.payload, g)));
        { FoldOpsCons(y, rest, Step(x.payload, g)); FoldOpsCons(x, s, g); }
        FoldOps([x] + s, g);
      }
    }
  }

  lemma {:induction false} TailInversions(ops: seq<Op>, s: seq<Op>)
    requires ops != [] && InversionsCommute(ops) && multiset(s) == multiset(ops[1..])
    ensures InversionsCommute(ops[1..])
    ensures forall j :: 0 <= j < |s| && PhaseOrder(ops[0].kind) > PhaseOrder(s[j].kind)
              ==> Commuting(ops[0].payload, s[j].payload)
  {
    assert forall i :: 0 <= i < |ops[1..]| ==> ops[1..][i] == ops[i + 1];
    forall j | 0 <= j < |s| && PhaseOrder(ops[0].kind) > PhaseOrder(s[j].kind)
      ensures Commuting(ops[0].payload, s[j].payload)
    {
      assert s[j] in multiset(ops[1..]);
      var i :| 0 <= i < |ops[1..]| && ops[1..][i] == s[j];
      assert ops[i + 1] == s[j];
    }
  }

  /** Sorting by phase preserves meaning: if the pairs it swaps commute, the sorted list
      produces the same graph as the source order. */
  lemma {:induction false} PhaseSortKeepsMeaning(ops: seq<Op>, g: GraphValue)
    requires Valid(g) && Ready(ops, g) && InversionsCommute(ops)
    ensures FoldOps(PhaseSort(ops), g) == FoldOps(ops, g)
    decreases |ops|
  {
    if ops != [] {
      var x, rest := ops[0], ops[1..];
      var sorted := PhaseSort(rest);
      ReadyStep(ops, g);
      TailInversions(ops, sorted);
      PhaseSortKeepsMeaning(rest, Step(x.payload, g));
      assert ops == [x] + rest;
      ReadyPermuted(ops, [x] + sorted, g);
      InsertKeepsFold(x, sorted, g);
      FoldOpsCons(x, sorted, g);
    }
  }

  /** Ready operations on a valid graph are always enabled at their turn. */
  lemma {:induction false} ReadyEnabled(ops: seq<Op>, g: GraphValue, k: nat)
    requires Valid(g) && Ready(ops, g) && k < |ops|
    ensures Enabled(Payloads(ops)[k], Fold(Payloads(ops)[..k], g))
    decreases k
  {
    if k > 0 {
      ReadyStep(ops, g);
      ReadyEnabled(ops[1..], Step(ops[0].payload, g), k - 1);
      assert Payloads(ops)[1..] == Payloads(ops[1..]);
      assert Payloads(ops)[..k][1..] == Payloads(ops[1..])[..k - 1];
    }
  }

  lemma {:induction false} ReadyApplies(base: SnapshotId, pre: seq<Precondition>, ops: seq<Op>, g: GraphValue,
                                        live: SnapshotId, hash: GraphNode -> string, o: Outcome, g': GraphValue)
    requires Valid(g) && Ready(ops, g) && base == live && AllHold(pre, g, hash)
    requires Settles(CanonicalChangeSet(base, pre, Payloads(ops)), g, live, hash, o, g')
    ensures o == Applied && g' == FoldOps(ops, g)
  {
    var cs := CanonicalChangeSet(base, pre, Payloads(ops));
    forall k | 0 <= k < |ops| ensures Enabled(cs.ops[k], Fold(cs.ops[..k], g)) {
      ReadyEnabled(ops, g, k);
    }
    AppliedIffEnabled(cs, g, live, hash, o, g');
    FoldOpsIsFold(ops, g);
  }

  /** The whole transaction agrees: source order and canonical order end with the same
      outcome and the same graph. */
  lemma {:induction false} CanonicalOrderKeepsOutcome(base: SnapshotId, pre: seq<Precondition>, ops: seq<Op>,
                                                      g: GraphValue, live: SnapshotId, hash: GraphNode -> string,
                                                      o1: Outcome, g1: GraphValue, o2: Outcome, g2: GraphValue)
    requires Valid(g) && Ready(ops, g) && InversionsCommute(ops)
    requires Settles(CanonicalChangeSet(base, pre, Payloads(ops)), g, live, hash, o1, g1)
    requires Settles(CanonicalChangeSet(base, pre, Payloads(PhaseSort(ops))), g, live, hash, o2, g2)
    ensures o1 == o2 && g1 == g2
  {
    if base == live && AllHold(pre, g, hash) {
      PhaseSortKeepsMeaning(ops, g);
      ReadyPermuted(ops, PhaseSort(ops), g);
      ReadyApplies(base, pre, ops, g, live, hash, o1, g1);
      ReadyApplies(base, pre, PhaseSort(ops), g, live, hash, o2, g2);
    } else {
      EarlyEnd(base, pre, Payloads(ops), Payloads(PhaseSort(ops)), g, live, hash, o1, g1, o2, g2);
    }
  }

  /** A stale base or a failed precondition ends the transaction before the operations matter. */
  lemma {:induction false} EarlyEnd(base: SnapshotId, pre: seq<Precondition>, ps: seq<OpPayload>, qs: seq<OpPayload>,
                                    g: GraphValue, live: SnapshotId, hash: GraphNode -> string, o1: Outcome,
                                    g1: GraphValue, o2: Outcome, g2: GraphValue)
    requires base != live || !AllHold(pre, g, hash)
    requires Settles(CanonicalChangeSet(base, pre, ps), g, live, hash, o1, g1)
    requires Settles(CanonicalChangeSet(base, pre, qs), g, live, hash, o2, g2)
    ensures o1 == o2 && g1 == g2
  {
    SettlesDeterministic(CanonicalChangeSet(base, pre, ps), g, live, hash, o1, g1, o2, g2);
  }

  /** The condition on swapped pairs is exact: an operation written before one of an earlier
      phase keeps its meaning on every graph if and only if the two payloads commute. */
  lemma {:induction false} PairSortKeepsMeaningIff(x: Op, y: Op)
    requires PhaseOrder(x.kind) > PhaseOrder(y.kind) && ByName(x.payload) && ByName(y.payload)
    requires x.payload.CreateNode? ==> x.kind == Create
    ensures Commuting(x.payload, y.payload) <==>
              forall g :: Valid(g) && Ready([x, y], g) ==> FoldOps(PhaseSort([x, y]), g) == FoldOps([x, y], g)
  {
    SortPair(x, y);
    if Commuting(x.payload, y.payload) {
      assert InversionsCommute([x, y]);
      forall g | Valid(g) && Ready([x, y], g) ensures FoldOps(PhaseSort([x, y]), g) == FoldOps([x, y], g) {
        PhaseSortKeepsMeaning([x, y], g);
      }
    } else {
      var g := SortedPairDiffers(x, y);
    }
  }

  /** A pair that does not commute: a ready valid graph on which sorting changes the result. */
  lemma {:induction false} SortedPairDiffers(x: Op, y: Op) returns (g: GraphValue)
    requires PhaseOrder(x.kind) > PhaseOrder(y.kind) && ByName(x.payload) && ByName(y.payload)
    requires !x.payload.CreateNode? && !Commuting(x.payload, y.payload)
    ensures Valid(g) && Ready([x, y], g) && FoldOps(PhaseSort([x, y]), g) != FoldOps([x, y], g)
  {
    g := OddsClash(x.payload, y.payload);
    SortPair(x, y);
    FoldPair(x, y, g);
    FoldPair(y, x, g);
  }

  lemma {:induction false} SortPair(x: Op, y: Op)
    requires !PhaseLe(x, y)
    ensures PhaseSort([x, y]) == [y, x]
  {
    assert [x, y][1..] == [y] && [y][1..] == [];
    assert Order.Sort([y], PhaseLe) == Order.Insert(y, [], PhaseLe) == [y];
    assert Order.Insert(x, [y], PhaseLe) == [y] + Order.Insert(x, [], PhaseLe);
  }

  lemma {:induction false} FoldPair(x: Op, y: Op, g: GraphValue)
    ensures FoldOps([x, y], g) == Step(y.payload, Step(x.payload, g))
  {
    assert [x, y] == [x] + [y] && [y] == [y] + [];
    FoldOpsCons(x, [y], g);
    FoldOpsCons(y, [], Step(x.payload, g));
  }
}
