/** The coordinator that serialises concurrent change sets: optimistic commit against the
    live snapshot, semantic rebase of stale ones, and what holds over every run. */
module Coordinator {
  import opened Graph
  import opened Payload
  import opened Transaction

  datatype ConflictReason = SameNodeModifiedIncompatibly | NodeDeletedWhileModified

  datatype SubmitOutcome =
    | Committed(appliedId: SnapshotId)
    | RebaseCommitted(rebasedOnto: SnapshotId, appliedId: SnapshotId)
    | Conflict(reason: ConflictReason)
    | StaleBase(current: SnapshotId)
    | ApplyFailed(failure: FailureReason)

  // ---------------------------------------------------------------- structural diff

  /** The refs one payload mentions; payloads that work by name mention none. */
  function NodeRefs(p: OpPayload): set<NodeRef> {
    match p
    case CreateNode(n) => {n.id}
    case RemoveNode(id) => {id}
    case SetNodeName(id, _) => {id}
    case AddEdge(e) => {e.source, e.target}
    case _ => {}
  }

  function Touched(ops: seq<OpPayload>): (r: set<NodeRef>)
    ensures forall id :: id in r <==> exists i :: 0 <= i < |ops| && id in NodeRefs(ops[i])
  {
    if ops == [] then {} else NodeRefs(ops[0]) + Touched(ops[1..])
  }

  function Removed(ops: seq<OpPayload>): (r: set<NodeRef>)
    ensures forall id :: id in r <==> RemoveNode(id) in ops
  {
    if ops == [] then {} else (if ops[0].RemoveNode? then {ops[0].nodeId} else {}) + Removed(ops[1..])
  }

  method StructuralDiff(ops: seq<OpPayload>) returns (touched: set<NodeRef>, removed: set<NodeRef>)
    ensures touched == Touched(ops) && removed == Removed(ops)
  {
    touched, removed := {}, {};
    for i := 0 to |ops|
      invariant forall id :: id in touched <==> exists j :: 0 <= j < i && id in NodeRefs(ops[j])
      invariant forall id :: id in removed <==> RemoveNode(id) in ops[..i]
    {
      touched := touched + NodeRefs(ops[i]);
      if ops[i].RemoveNode? {
        removed := removed + {ops[i].nodeId};
      }
      assert ops[..i + 1] == ops[..i] + [ops[i]];
    }
    assert ops[..|ops|] == ops;
  }

  // ---------------------------------------------------------------- specification

  datatype CoordinatorState = CoordinatorState(
    graph: GraphValue, live: SnapshotId, diff: set<NodeRef>, removes: set<NodeRef>)

  function AfterCommit(ops: seq<OpPayload>, g: GraphValue, live: SnapshotId): CoordinatorState {
    CoordinatorState(g, Next(live), Touched(ops), Removed(ops))
  }

  function Classify(conflicts: set<NodeRef>, removed: set<NodeRef>): ConflictReason {
    if conflicts * removed != {} then NodeDeletedWhileModified else SameNodeModifiedIncompatibly
  }

  /** `out` and `s'` are the legal end of submitting `cs` in state `s`. */
  ghost predicate Submits(cs: CanonicalChangeSet, s: CoordinatorState, hash: GraphNode -> string,
                          out: SubmitOutcome, s': CoordinatorState) {
    match out
    case Committed(id) =>
      && Settles(cs, s.graph, s.live, hash, Applied, s'.graph)
      && s' == AfterCommit(cs.ops, s'.graph, s.live) && id == s'.live
    case RebaseCommitted(onto, id) =>
      && cs.base != s.live && Touched(cs.ops) !! s.diff
      && Settles(cs.(base := s.live), s.graph, s.live, hash, Applied, s'.graph)
      && s' == AfterCommit(cs.ops, s'.graph, s.live) && onto == s.live && id == s'.live
    case Conflict(reason) =>
      && cs.base != s.live && s' == s
      && Touched(cs.ops) * s.diff != {} && reason == Classify(Touched(cs.ops) * s.diff, s.removes)
    case ApplyFailed(failure) =>
      && s' == s
      && (cs.base == s.live || Touched(cs.ops) !! s.diff)
      && Settles(cs.(base := s.live), s.graph, s.live, hash, Failed(failure), s.graph)
    case StaleBase(_) => false
  }

  // ---------------------------------------------------------------- the coordinator

  class Coordinator {
    const graph: SemanticGraph
    const bridge: SnapshotBridge
    var committedDiff: set<NodeRef>
    var committedRemoves: set<NodeRef>

    constructor (initial: SnapshotId, g: GraphValue)
      ensures fresh(graph) && fresh(bridge)
      ensures State() == CoordinatorState(g, initial, {}, {})
    {
      graph := new SemanticGraph(g);
      bridge := new SnapshotBridge(initial);
      committedDiff, committedRemoves := {}, {};
    }

    ghost function State(): CoordinatorState
      reads this, graph, bridge
    {
      CoordinatorState(graph.Value(), bridge.currentId, committedDiff, committedRemoves)
    }

    /** Snapshot guard, rebase if stale, apply, advance. */
    method Submit(cs: CanonicalChangeSet, hash: GraphNode -> string) returns (out: SubmitOutcome)
      modifies this, graph, bridge
      ensures Submits(cs, old(State()), hash, out, State())
    {
      var live := bridge.CurrentSnapshotId();
      var touched, removed := StructuralDiff(cs.ops);
      if cs.base == live {
        var fixed := new SnapshotBridge(live);
        var outcome := Apply(cs, graph, fixed, hash);
        match outcome {
          case Applied =>
            bridge.AdvanceSnapshotId();
            committedDiff, committedRemoves := touched, removed;
            var id := bridge.CurrentSnapshotId();
            return Committed(id);
          case Failed(failure) =>
            return ApplyFailed(failure);
          case RebaseRequired(current) =>
            assert false;
            return StaleBase(live);
        }
      }
      var conflicts := touched * committedDiff;
      if conflicts != {} {
        return Conflict(Classify(conflicts, committedRemoves));
      }
      var rebased := cs.(base := live);
      var rebasedBridge := new SnapshotBridge(live);
      var outcome := Apply(rebased, graph, rebasedBridge, hash);
      match outcome {
        case Applied =>
          bridge.AdvanceSnapshotId();
          committedDiff, committedRemoves := touched, removed;
          var id := bridge.CurrentSnapshotId();
          return RebaseCommitted(live, id);
        case Failed(failure) =>
          return ApplyFailed(failure);
        case RebaseRequired(current) =>
          assert false;
          return StaleBase(current);
      }
    }
  }

  // ---------------------------------------------------------------- runs

  datatype Submission = Submission(cs: CanonicalChangeSet, out: SubmitOutcome)

  predicate IsCommit(out: SubmitOutcome) {
    out.Committed? || out.RebaseCommitted?
  }

  ghost predicate Run(subs: seq<Submission>, states: seq<CoordinatorState>, hash: GraphNode -> string) {
    && |states| == |subs| + 1
    && forall i :: 0 <= i < |subs| ==> Submits(subs[i].cs, states[i], hash, subs[i].out, states[i + 1])
  }

  /** Commits among the first `n` submissions. */
  function Commits(subs: seq<Submission>, n: nat): nat
    requires n <= |subs|
  {
    if n == 0 then 0 else Commits(subs, n - 1) + if IsCommit(subs[n - 1].out) then 1 else 0
  }

  /** One submission: nothing but a commit changes anything, a commit advances the snapshot id
      by one, and validity is kept. */
  lemma {:induction false} SubmitStep(cs: CanonicalChangeSet, s: CoordinatorState, hash: GraphNode -> string,
                                      out: SubmitOutcome, s': CoordinatorState)
    requires Submits(cs, s, hash, out, s')
    ensures !IsCommit(out) ==> s' == s
    ensures IsCommit(out) ==> s'.live == Next(s.live) && s'.graph == Fold(cs.ops, s.graph)
    ensures Valid(s.graph) ==> Valid(s'.graph)
  {
    if out.Committed? {
      SettlesKeepsValidity(cs, s.graph, s.live, hash, Applied, s'.graph);
    } else if out.RebaseCommitted? {
      SettlesKeepsValidity(cs.(base := s.live), s.graph, s.live, hash, Applied, s'.graph);
    }
  }

  /** Over every run the live id counts the commits, modulo the width of the counter, and the
      graph stays valid. */
  lemma {:induction false} LiveIdCountsCommits(subs: seq<Submission>, states: seq<CoordinatorState>,
                                               hash: GraphNode -> string, n: nat)
    requires Run(subs, states, hash) && n <= |subs|
    ensures states[n].live == (states[0].live + Commits(subs, n)) % U64_MODULUS
    ensures Valid(states[0].graph) ==> Valid(states[n].graph)
  {
    if n > 0 {
      LiveIdCountsCommits(subs, states, hash, n - 1);
      SubmitStep(subs[n - 1].cs, states[n - 1], hash, subs[n - 1].out, states[n]);
      CountOne(states[0].live, Commits(subs, n - 1), states[n - 1].live, states[n].live, IsCommit(subs[n - 1].out));
    }
  }

  /** One submission moves the live id as it moves the number of commits. */
  lemma {:induction false} CountOne(start: SnapshotId, commits: nat, live: SnapshotId, live': SnapshotId, commit: bool)
    requires live == (start + commits) % U64_MODULUS && live' == if commit then Next(live) else live
    ensures live' == (start + commits + if commit then 1 else 0) % U64_MODULUS
  {
    NextAfterMod(start + commits);
  }

  lemma {:induction false} CommitsMonotone(subs: seq<Submission>, m: nat, n: nat)
    requires m <= n <= |subs|
    ensures Commits(subs, m) <= Commits(subs, n) <= Commits(subs, m) + (n - m)
  {
    if m < n {
      CommitsMonotone(subs, m, n - 1);
    }
  }

  /** First committer wins: of two submissions made against the same base, at most one
      commits without a rebase, as long as the counter has not wrapped in between. */
  lemma {:induction false} OneCommitPerBase(subs: seq<Submission>, states: seq<CoordinatorState>,
                                            hash: GraphNode -> string, i: nat, j: nat)
    requires Run(subs, states, hash) && i < j < |subs|
    requires subs[i].out.Committed? && subs[j].out.Committed?
    requires Commits(subs, j) - Commits(subs, i) < U64_MODULUS
    ensures subs[i].cs.base != subs[j].cs.base
    ensures subs[i].cs.base == (states[0].live + Commits(subs, i)) % U64_MODULUS
  {
    CommitBase(subs, states, hash, i);
    CommitBase(subs, states, hash, j);
    CommitsGrow(subs, i, j);
    ModularGap(states[0].live + Commits(subs, i), Commits(subs, j) - Commits(subs, i));
  }

  /** The base of an unrebased commit is the initial id plus the commits before it. */
  lemma {:induction false} CommitBase(subs: seq<Submission>, states: seq<CoordinatorState>, hash: GraphNode -> string,
                                      i: nat)
    requires Run(subs, states, hash) && i < |subs| && subs[i].out.Committed?
    ensures subs[i].cs.base == (states[0].live + Commits(subs, i)) % U64_MODULUS
  {
    LiveIdCountsCommits(subs, states, hash, i);
    CommitMatchesLive(subs, states, hash, i);
  }

  lemma {:induction false} CommitsGrow(subs: seq<Submission>, i: nat, j: nat)
    requires i < j <= |subs| && IsCommit(subs[i].out)
    ensures Commits(subs, i) < Commits(subs, j)
  {
    CommitsMonotone(subs, i + 1, j);
  }

  lemma {:induction false} CommitMatchesLive(subs: seq<Submission>, states: seq<CoordinatorState>,
                                             hash: GraphNode -> string, i: nat)
    requires Run(subs, states, hash) && i < |subs| && subs[i].out.Committed?
    ensures subs[i].cs.base == states[i].live
  {
    assert Submits(subs[i].cs, states[i], hash, subs[i].out, states[i + 1]);
  }

  /** The payloads committed by the first `n` submissions, in commit order. */
  function CommittedPayloads(subs: seq<Submission>, n: nat): seq<OpPayload>
    requires n <= |subs|
  {
    if n == 0 then [] else CommittedPayloads(subs, n - 1) + if IsCommit(subs[n - 1].out) then subs[n - 1].cs.ops else []
  }

  /** Every run is serial: the live graph is the fold of the committed change sets in commit
      order, whatever was rebased, rejected or in conflict. */
  lemma {:induction false} RunIsSerial(subs: seq<Submission>, states: seq<CoordinatorState>,
                                       hash: GraphNode -> string, n: nat)
    requires Run(subs, states, hash) && n <= |subs|
    ensures states[n].graph == Fold(CommittedPayloads(subs, n), states[0].graph)
  {
    if n > 0 {
      RunIsSerial(subs, states, hash, n - 1);
      SubmitStep(subs[n - 1].cs, states[n - 1], hash, subs[n - 1].out, states[n]);
      var last := if IsCommit(subs[n - 1].out) then subs[n - 1].cs.ops else [];
      FoldConcat(CommittedPayloads(subs, n - 1), last, states[0].graph);
    }
  }

  // ---------------------------------------------------------------- how far back the conflict check looks

  /** The remembered diff is that of the last commit. */
  lemma {:induction false} DiffIsLastCommit(subs: seq<Submission>, states: seq<CoordinatorState>,
                                            hash: GraphNode -> string, j: nat, i: nat)
    requires Run(subs, states, hash) && j < i <= |subs| && IsCommit(subs[j].out)
    requires forall k :: j < k < i ==> !IsCommit(subs[k].out)
    ensures states[i].diff == Touched(subs[j].cs.ops)
    decreases i
  {
    assert Submits(subs[i - 1].cs, states[i - 1], hash, subs[i - 1].out, states[i]);
    if j + 1 < i {
      DiffIsLastCommit(subs, states, hash, j, i - 1);
      SubmitStep(subs[i - 1].cs, states[i - 1], hash, subs[i - 1].out, states[i]);
    }
  }

  /** A rebased commit shares no ref with the commit before it. */
  lemma {:induction false} RebaseSeesLastCommit(subs: seq<Submission>, states: seq<CoordinatorState>,
                                                hash: GraphNode -> string, j: nat, i: nat)
    requires Run(subs, states, hash) && j < i < |subs| && IsCommit(subs[j].out) && subs[i].out.RebaseCommitted?
    requires forall k :: j < k < i ==> !IsCommit(subs[k].out)
    ensures Touched(subs[j].cs.ops) !! Touched(subs[i].cs.ops)
  {
    DiffIsLastCommit(subs, states, hash, j, i);
    assert Submits(subs[i].cs, states[i], hash, subs[i].out, states[i + 1]);
  }

  function Naming(base: SnapshotId, id: NodeRef, name: string): CanonicalChangeSet {
    CanonicalChangeSet(base, [], [SetNodeName(id, name)])
  }

  lemma {:induction false} NamingSettles(live: SnapshotId, id: NodeRef, name: string, g: GraphValue,
                                         hash: GraphNode -> string)
    requires Valid(g)
    ensures Settles(Naming(live, id, name), g, live, hash, Applied, Step(SetNodeName(id, name), g))
    ensures Valid(Step(SetNodeName(id, name), g))
    ensures Touched(Naming(live, id, name).ops) == {id} && Removed(Naming(live, id, name).ops) == {}
  {
    var p := SetNodeName(id, name);
    StepValid(p, g);
    assert [p][..0] == [] && [p][..1] == [p] && [p][1..] == [];
    assert Fold([p], g) == Step(p, g);
  }

  // ---------------------------------------------------------------- the window of the conflict check

  /** Submission `i` is a rebased commit, written against the state before submission `m`, and `k`
      change sets were committed in between. */
  ghost predicate RebasedAfter(subs: seq<Submission>, states: seq<CoordinatorState>, hash: GraphNode -> string,
                               m: nat, i: nat, k: nat) {
    && Run(subs, states, hash) && m <= i < |subs| && subs[i].out.RebaseCommitted?
    && subs[i].cs.base == states[m].live && Commits(subs, i) == Commits(subs, m) + k
  }

  /** Nothing committed since then mentions a ref that submission `i` mentions. */
  ghost predicate DisjointSince(subs: seq<Submission>, m: nat, i: nat)
    requires m <= i < |subs|
  {
    forall j :: m <= j < i && IsCommit(subs[j].out) ==> Touched(subs[j].cs.ops) !! Touched(subs[i].cs.ops)
  }

  /** A commit is rebased only if something was committed since its base. */
  lemma {:induction false} RebasedIsBehind(subs: seq<Submission>, states: seq<CoordinatorState>,
                                           hash: GraphNode -> string,
                                           m: nat, i: nat, k: nat)
    requires RebasedAfter(subs, states, hash, m, i, k)
    ensures k > 0
  {
    assert Submits(subs[i].cs, states[i], hash, subs[i].out, states[i + 1]);
    if k == 0 {
      SameLive(subs, states, hash, m, i);
    }
  }

  lemma {:induction false} SameLive(subs: seq<Submission>, states: seq<CoordinatorState>, hash: GraphNode -> string,
                                    m: nat, i: nat)
    requires Run(subs, states, hash) && m <= |subs| && i <= |subs| && Commits(subs, m) == Commits(subs, i)
    ensures states[m].live == states[i].live
  {
    LiveIdCountsCommits(subs, states, hash, m);
    LiveIdCountsCommits(subs, states, hash, i);
  }

  /** One commit behind: the check protects everything since the base. */
  lemma {:induction false} OneBehindIsProtected(subs: seq<Submission>, states: seq<CoordinatorState>,
                                                hash: GraphNode -> string,
                                                m: nat, i: nat)
    requires RebasedAfter(subs, states, hash, m, i, 1)
    ensures DisjointSince(subs, m, i)
  {
    forall j | m <= j < i && IsCommit(subs[j].out) ensures Touched(subs[j].cs.ops) !! Touched(subs[i].cs.ops) {
      forall k | j < k < i ensures !IsCommit(subs[k].out) {
        OnlyCommit(subs, m, j, k, i);
      }
      RebaseSeesLastCommit(subs, states, hash, j, i);
    }
  }

  lemma {:induction false} OnlyCommit(subs: seq<Submission>, m: nat, j: nat, k: nat, i: nat)
    requires m <= j < k < i <= |subs| && Commits(subs, i) == Commits(subs, m) + 1 && IsCommit(subs[j].out)
    ensures !IsCommit(subs[k].out)
  {
    CommitsMonotone(subs, m, j);
    CommitsMonotone(subs, j + 1, k);
    CommitsMonotone(subs, k + 1, i);
  }

  /** The graph after `n` commits, the first of which names node `a`, the others node `b`. */
  function NamedGraph(g: GraphValue, a: NodeRef, b: NodeRef, name: string, n: nat): GraphValue {
    if n == 0 then g else Step(SetNodeName(if n == 1 then a else b, name), NamedGraph(g, a, b, name, n - 1))
  }

  function NamedState(g: GraphValue, live: SnapshotId, a: NodeRef, b: NodeRef, name: string, n: nat): CoordinatorState {
    CoordinatorState(NamedGraph(g, a, b, name, n), (live + n) % U64_MODULUS,
                     if n == 0 then {} else if n == 1 then {a} else {b}, {})
  }

  function NamingSubmission(live: SnapshotId, a: NodeRef, b: NodeRef, name: string, n: nat): Submission {
    Submission(Naming((live + n) % U64_MODULUS, if n == 0 then a else b, name), Committed((live + n + 1) % U64_MODULUS))
  }

  lemma {:induction false} NamedGraphValid(g: GraphValue, a: NodeRef, b: NodeRef, name: string, n: nat)
    requires Valid(g)
    ensures Valid(NamedGraph(g, a, b, name, n))
  {
    if n > 0 {
      NamedGraphValid(g, a, b, name, n - 1);
      StepValid(SetNodeName(if n == 1 then a else b, name), NamedGraph(g, a, b, name, n - 1));
    }
  }

  lemma {:induction false} NamingSubmits(g: GraphValue, live: SnapshotId, a: NodeRef, b: NodeRef, name: string, n: nat,
                                         hash: GraphNode -> string)
    requires Valid(g)
    ensures var sub := NamingSubmission(live, a, b, name, n);
            Submits(sub.cs, NamedState(g, live, a, b, name, n), hash, sub.out, NamedState(g, live, a, b, name, n + 1))
  {
    NamedGraphValid(g, a, b, name, n);
    NamingSettles((live + n) % U64_MODULUS, if n == 0 then a else b, name, NamedGraph(g, a, b, name, n), hash);
    NextAfterMod(live + n);
  }

  lemma {:induction false} AllCommits(subs: seq<Submission>, n: nat)
    requires n <= |subs| && forall i :: 0 <= i < n ==> IsCommit(subs[i].out)
    ensures Commits(subs, n) == n
  {
    if n > 0 {
      AllCommits(subs, n - 1);
    }
  }

  /** The state a rebased naming of `a` leads to after `k` commits. */
  function LateState(g: GraphValue, live: SnapshotId, a: NodeRef, b: NodeRef, name: string, k: nat): CoordinatorState {
    CoordinatorState(Step(SetNodeName(a, name), NamedGraph(g, a, b, name, k)), Next((live + k) % U64_MODULUS), {a}, {})
  }

  function LateSubmission(live: SnapshotId, a: NodeRef, name: string, k: nat): Submission {
    var onto := (live + k) % U64_MODULUS;
    Submission(Naming(live, a, name), RebaseCommitted(onto, Next(onto)))
  }

  lemma {:induction false} LateSubmits(g: GraphValue, live: SnapshotId, a: NodeRef, b: NodeRef, name: string, k: nat,
                                       hash: GraphNode -> string)
    requires Valid(g) && a != b && 2 <= k < U64_MODULUS
    ensures var sub := LateSubmission(live, a, name, k);
            Submits(sub.cs, NamedState(g, live, a, b, name, k), hash, sub.out, LateState(g, live, a, b, name, k))
  {
    var onto := (live + k) % U64_MODULUS;
    var graph := NamedGraph(g, a, b, name, k);
    NamedGraphValid(g, a, b, name, k);
    NamingSettles(onto, a, name, graph, hash);
    ModularGap(live, k);
    assert Naming(onto, a, name) == Naming(live, a, name).(base := onto);
  }

  function LateRun(live: SnapshotId, a: NodeRef, b: NodeRef, name: string, k: nat): (r: seq<Submission>)
    ensures |r| == k + 1 && r[k] == LateSubmission(live, a, name, k)
    ensures forall n :: 0 <= n < k ==> r[n] == NamingSubmission(live, a, b, name, n)
  {
    seq(k, n requires 0 <= n < k => NamingSubmission(live, a, b, name, n)) + [LateSubmission(live, a, name, k)]
  }

  function LateStates(g: GraphValue, live: SnapshotId, a: NodeRef, b: NodeRef, name: string, k: nat)
    : (r: seq<CoordinatorState>)
    ensures |r| == k + 2 && r[k + 1] == LateState(g, live, a, b, name, k)
    ensures forall n :: 0 <= n <= k ==> r[n] == NamedState(g, live, a, b, name, n)
  {
    seq(k + 1, n requires 0 <= n <= k => NamedState(g, live, a, b, name, n)) + [LateState(g, live, a, b, name, k)]
  }

  lemma {:induction false} LateRuns(g: GraphValue, live: SnapshotId, a: NodeRef, b: NodeRef, name: string, k: nat,
                                    hash: GraphNode -> string)
    requires Valid(g) && a != b && 2 <= k < U64_MODULUS
    ensures Run(LateRun(live, a, b, name, k), LateStates(g, live, a, b, name, k), hash)
  {
    var subs, states := LateRun(live, a, b, name, k), LateStates(g, live, a, b, name, k);
    forall i | 0 <= i < |subs| ensures Submits(subs[i].cs, states[i], hash, subs[i].out, states[i + 1]) {
      if i < k {
        NamingSubmits(g, live, a, b, name, i, hash);
      } else {
        LateSubmits(g, live, a, b, name, k, hash);
      }
    }
  }

  lemma {:induction false} NamingTouches(base: SnapshotId, id: NodeRef, name: string)
    ensures Touched(Naming(base, id, name).ops) == {id}
  {
    assert [SetNodeName(id, name)][1..] == [];
  }

  /** Two or more commits behind: from any valid graph and for any two refs there is a run in which
      a change set is rebased and committed although the first commit since its base named the same
      node. */
  lemma {:induction false} OlderCommitsUnchecked(g: GraphValue, live: SnapshotId, a: NodeRef, b: NodeRef, name: string,
                                                 hash: GraphNode -> string, k: nat)
    requires Valid(g) && a != b && 2 <= k < U64_MODULUS
    ensures var subs, states := LateRun(live, a, b, name, k), LateStates(g, live, a, b, name, k);
            && RebasedAfter(subs, states, hash, 0, k, k) && states[0] == CoordinatorState(g, live, {}, {})
            && !DisjointSince(subs, 0, k)
  {
    LateRuns(g, live, a, b, name, k, hash);
    AllCommits(LateRun(live, a, b, name, k), k);
    LateConflict(live, a, b, name, k);
  }

  lemma {:induction false} LateConflict(live: SnapshotId, a: NodeRef, b: NodeRef, name: string, k: nat)
    requires k > 0
    ensures !DisjointSince(LateRun(live, a, b, name, k), 0, k)
  {
    var subs := LateRun(live, a, b, name, k);
    NamingTouches(live, a, name);
    assert subs[0] == NamingSubmission(live, a, b, name, 0) && subs[k] == LateSubmission(live, a, name, k);
    assert a in Touched(subs[0].cs.ops) && a in Touched(subs[k].cs.ops);
  }

  /** The exact window: rebased commits that are `k` commits behind are disjoint from everything
      committed since their base, in every run, if and only if `k` is one. */
  lemma {:induction false} ConflictWindow(hash: GraphNode -> string, k: nat)
    requires 1 <= k < U64_MODULUS
    ensures k == 1 <==>
              forall subs, states, m, i :: RebasedAfter(subs, states, hash, m, i, k) ==> DisjointSince(subs, m, i)
  {
    if k == 1 {
      forall subs, states, m, i | RebasedAfter(subs, states, hash, m, i, 1) ensures DisjointSince(subs, m, i) {
        OneBehindIsProtected(subs, states, hash, m, i);
      }
    } else {
      OlderCommitsUnchecked(EMPTY_GRAPH, 0, 0, 1, "", hash, k);
      assert RebasedAfter(LateRun(0, 0, 1, "", k), LateStates(EMPTY_GRAPH, 0, 0, 1, "", k), hash, 0, k, k);
    }
  }
}
