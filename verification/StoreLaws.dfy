/** What marking marks, what collection keeps, and what the integrity report says. */
module StoreLaws {
  import opened Base
  import opened Store

  // ---------------------------------------------------------------- live snapshots

  /** The `n`-th snapshot on the parent chain of `id`. */
  function Ancestor(files: seq<File>, c: Codec, id: Option<ObjectId>, n: nat): Option<Snapshot>
    decreases n
  {
    if id.None? then None
    else
      match Find(files, c, id.value)
      case None => None
      case Some(s) => if n == 0 then Some(s) else Ancestor(files, c, s.parent, n - 1)
  }

  /** A snapshot on the parent chain of some branch. */
  ghost predicate Live(files: seq<File>, c: Codec, branches: seq<BranchRef>, s: Snapshot) {
    exists b, n: nat :: b in branches && Ancestor(files, c, Head(b), n) == Some(s)
  }

  /** No live snapshot's content id is also an id that another live snapshot keeps alive. */
  ghost predicate NoAliases(files: seq<File>, c: Codec, branches: seq<BranchRef>) {
    forall s, t :: Live(files, c, branches, s) && Live(files, c, branches, t) && c.Cas(s) in Marks(t, c) ==> s == t
  }

  lemma {:induction false} AncestorStep(files: seq<File>, c: Codec, id: Option<ObjectId>, n: nat)
    requires Ancestor(files, c, id, n).Some?
    ensures Ancestor(files, c, id, n + 1)
            == var p := Ancestor(files, c, id, n).value.parent; if p.Some? then Find(files, c, p.value) else None
    decreases n
  {
    if n > 0 {
      AncestorStep(files, c, Find(files, c, id.value).value.parent, n - 1);
    }
  }

  lemma {:induction false} ParentIsLive(files: seq<File>, c: Codec, branches: seq<BranchRef>, s: Snapshot)
    requires Live(files, c, branches, s) && s.parent.Some? && Find(files, c, s.parent.value).Some?
    ensures Live(files, c, branches, Find(files, c, s.parent.value).value)
  {
    var b, n: nat :| b in branches && Ancestor(files, c, Head(b), n) == Some(s);
    AncestorStep(files, c, Head(b), n);
    assert Ancestor(files, c, Head(b), n + 1).Some?;
  }

  // ---------------------------------------------------------------- marking is exact

  /** The union of the marks of some snapshots. */
  ghost function Union(done: set<Snapshot>, c: Codec): set<ObjectId> {
    set s, x | s in done && x in Marks(s, c) :: x
  }

  lemma {:induction false} UnionAdd(done: set<Snapshot>, c: Codec, s: Snapshot)
    ensures Union(done + {s}, c) == Union(done, c) + Marks(s, c)
  {
    var more := Marks(s, c);
    forall x ensures x in Union(done + {s}, c) <==> x in Union(done, c) + more {
      if x in more {
        assert s in done + {s};
      }
      if x in Union(done, c) {
        var t :| t in done && x in Marks(t, c);
        assert t in done + {s};
      }
    }
  }

  /** The snapshots that one walk visits. */
  ghost function Walked(files: seq<File>, c: Codec, next: Option<ObjectId>, marked: set<ObjectId>): set<Snapshot>
    decreases |CasSet(files, c) - marked|
  {
    if next.None? then {}
    else
      match Find(files, c, next.value)
      case None => {}
      case Some(s) =>
        if c.Cas(s) in marked then {}
        else
          FoundIsCounted(files, c, next.value);
          Shrinks(CasSet(files, c), marked, c.Cas(s), Marks(s, c));
          {s} + Walked(files, c, s.parent, marked + Marks(s, c))
  }

  ghost function WalkedAll(files: seq<File>, c: Codec, branches: seq<BranchRef>, marked: set<ObjectId>): set<Snapshot> {
    if branches == [] then {}
    else
      var head := Head(branches[0]);
      Walked(files, c, head, marked) + WalkedAll(files, c, branches[1..], MarkFrom(files, c, head, marked))
  }

  /** The snapshots that marking visits. */
  ghost function Visited(files: seq<File>, c: Codec, branches: seq<BranchRef>): set<Snapshot> {
    WalkedAll(files, c, branches, {})
  }

  lemma {:induction false} UnionJoins(a: set<Snapshot>, b: set<Snapshot>, c: Codec)
    ensures Union(a + b, c) == Union(a, c) + Union(b, c)
  {
    forall x ensures x in Union(a + b, c) <==> x in Union(a, c) + Union(b, c) {
      if x in Union(a, c) {
        var t :| t in a && x in Marks(t, c);
        assert t in a + b;
      }
      if x in Union(b, c) {
        var t :| t in b && x in Marks(t, c);
        assert t in a + b;
      }
    }
  }

  /** A walk marks what the visited snapshots keep alive. */
  lemma {:induction false} WalkMarksVisited(files: seq<File>, c: Codec, next: Option<ObjectId>, marked: set<ObjectId>)
    ensures MarkFrom(files, c, next, marked) == marked + Union(Walked(files, c, next, marked), c)
    decreases |CasSet(files, c) - marked|
  {
    if next.Some? && Find(files, c, next.value).Some? {
      var s := Find(files, c, next.value).value;
      if c.Cas(s) !in marked {
        FoundIsCounted(files, c, next.value);
        Shrinks(CasSet(files, c), marked, c.Cas(s), Marks(s, c));
        WalkMarksVisited(files, c, s.parent, marked + Marks(s, c));
        UnionAdd(Walked(files, c, s.parent, marked + Marks(s, c)), c, s);
        assert {s} + Walked(files, c, s.parent, marked + Marks(s, c))
               == Walked(files, c, s.parent, marked + Marks(s, c)) + {s};
      }
    }
  }

  lemma {:induction false} WalksMarkVisited(files: seq<File>, c: Codec, branches: seq<BranchRef>, marked: set<ObjectId>)
    ensures MarkAll(files, c, branches, marked) == marked + Union(WalkedAll(files, c, branches, marked), c)
    decreases |branches|
  {
    if branches != [] {
      var head := Head(branches[0]);
      var mid := MarkFrom(files, c, head, marked);
      WalkMarksVisited(files, c, head, marked);
      WalksMarkVisited(files, c, branches[1..], mid);
      UnionJoins(Walked(files, c, head, marked), WalkedAll(files, c, branches[1..], mid), c);
    }
  }

  /** Found under the id, if anything is. */
  ghost predicate FoundAs(files: seq<File>, c: Codec, id: Option<ObjectId>, t: Snapshot) {
    id.Some? && Find(files, c, id.value) == Some(t)
  }

  lemma {:induction false} HeadIsLive(files: seq<File>, c: Codec, branches: seq<BranchRef>, b: BranchRef, t: Snapshot)
    requires b in branches && FoundAs(files, c, Head(b), t)
    ensures Live(files, c, branches, t)
  {
    assert Ancestor(files, c, Head(b), 0) == Some(t);
  }

  lemma {:induction false} WalkIsLive(files: seq<File>, c: Codec, branches: seq<BranchRef>, next: Option<ObjectId>,
                                      marked: set<ObjectId>, t: Snapshot)
    requires forall s :: FoundAs(files, c, next, s) ==> Live(files, c, branches, s)
    requires t in Walked(files, c, next, marked)
    ensures Live(files, c, branches, t)
    decreases |CasSet(files, c) - marked|
  {
    var s := Find(files, c, next.value).value;
    assert FoundAs(files, c, next, s);
    if t != s {
      FoundIsCounted(files, c, next.value);
      Shrinks(CasSet(files, c), marked, c.Cas(s), Marks(s, c));
      forall u | FoundAs(files, c, s.parent, u) ensures Live(files, c, branches, u) {
        ParentIsLive(files, c, branches, s);
      }
      WalkIsLive(files, c, branches, s.parent, marked + Marks(s, c), t);
    }
  }

  lemma {:induction false} WalksAreLive(files: seq<File>, c: Codec, branches: seq<BranchRef>, todo: seq<BranchRef>,
                                        marked: set<ObjectId>, t: Snapshot)
    requires (forall b :: b in todo ==> b in branches) && t in WalkedAll(files, c, todo, marked)
    ensures Live(files, c, branches, t)
    decreases |todo|
  {
    var head := Head(todo[0]);
    if t in Walked(files, c, head, marked) {
      forall s | FoundAs(files, c, head, s) ensures Live(files, c, branches, s) {
        HeadIsLive(files, c, branches, todo[0], s);
      }
      WalkIsLive(files, c, branches, head, marked, t);
    } else {
      WalksAreLive(files, c, branches, todo[1..], MarkFrom(files, c, head, marked), t);
    }
  }

  /** Marking marks exactly what the visited snapshots keep alive, and visits live ones only. */
  lemma {:induction false} ReachableIsVisited(files: seq<File>, c: Codec, branches: seq<BranchRef>)
    ensures Reachable(files, c, branches) == Union(Visited(files, c, branches), c)
    ensures forall u :: u in Visited(files, c, branches) ==> Live(files, c, branches, u)
  {
    var none: set<ObjectId> := {};
    WalksMarkVisited(files, c, branches, none);
    assert none + Union(Visited(files, c, branches), c) == Union(Visited(files, c, branches), c);
    forall u | u in Visited(files, c, branches) ensures Live(files, c, branches, u) {
      WalksAreLive(files, c, branches, branches, none, u);
    }
  }

  // ---------------------------------------------------------------- where walks stop

  /** Marking comes to `t`, as a branch head or as the parent of a visited snapshot, and does not visit it. */
  ghost predicate PassedOver(files: seq<File>, c: Codec, branches: seq<BranchRef>, t: Snapshot) {
    && t !in Visited(files, c, branches)
    && (|| (exists b :: b in branches && FoundAs(files, c, Head(b), t))
        || (exists u :: u in Visited(files, c, branches) && FoundAs(files, c, u.parent, t)))
  }

  /** What a walk comes to it visits, or finds marked. */
  lemma {:induction false} WalkMeets(files: seq<File>, c: Codec, next: Option<ObjectId>, marked: set<ObjectId>,
                                     from: Option<Snapshot>, t: Snapshot)
    requires from.Some? ==> from.value in Walked(files, c, next, marked)
    requires FoundAs(files, c, if from.Some? then from.value.parent else next, t)
    ensures t in Walked(files, c, next, marked) || c.Cas(t) in MarkFrom(files, c, next, marked)
    decreases |CasSet(files, c) - marked|
  {
    if next.Some? && Find(files, c, next.value).Some? {
      var s := Find(files, c, next.value).value;
      if c.Cas(s) !in marked && from.Some? {
        FoundIsCounted(files, c, next.value);
        Shrinks(CasSet(files, c), marked, c.Cas(s), Marks(s, c));
        WalkMeets(files, c, s.parent, marked + Marks(s, c), if from == Some(s) then None else from, t);
      }
    }
  }

  lemma {:induction false} WalksMeet(files: seq<File>, c: Codec, todo: seq<BranchRef>, marked: set<ObjectId>,
                                     u: Snapshot, t: Snapshot)
    requires u in WalkedAll(files, c, todo, marked) && FoundAs(files, c, u.parent, t)
    ensures t in WalkedAll(files, c, todo, marked) || c.Cas(t) in MarkAll(files, c, todo, marked)
    decreases |todo|
  {
    var head := Head(todo[0]);
    var mid := MarkFrom(files, c, head, marked);
    MarkAllGrows(files, c, todo[1..], mid);
    if u in Walked(files, c, head, marked) {
      WalkMeets(files, c, head, marked, Some(u), t);
    } else {
      WalksMeet(files, c, todo[1..], mid, u, t);
    }
  }

  lemma {:induction false} HeadsMeet(files: seq<File>, c: Codec, todo: seq<BranchRef>, marked: set<ObjectId>,
                                     b: BranchRef, t: Snapshot)
    requires b in todo && FoundAs(files, c, Head(b), t)
    ensures t in WalkedAll(files, c, todo, marked) || c.Cas(t) in MarkAll(files, c, todo, marked)
    decreases |todo|
  {
    var head := Head(todo[0]);
    var mid := MarkFrom(files, c, head, marked);
    MarkAllGrows(files, c, todo[1..], mid);
    if b == todo[0] {
      WalkMeets(files, c, head, marked, None, t);
    } else {
      HeadsMeet(files, c, todo[1..], mid, b, t);
    }
  }

  /** Only an alias makes marking pass over a snapshot: its content id is one that another, visited
      snapshot keeps alive. */
  lemma {:induction false} PassedOverIsAlias(files: seq<File>, c: Codec, branches: seq<BranchRef>, t: Snapshot)
    requires PassedOver(files, c, branches, t)
    ensures Live(files, c, branches, t)
    ensures exists u :: u in Visited(files, c, branches) && u != t && c.Cas(t) in Marks(u, c)
  {
    ReachableIsVisited(files, c, branches);
    if b :| b in branches && FoundAs(files, c, Head(b), t) {
      HeadIsLive(files, c, branches, b, t);
      HeadsMeet(files, c, branches, {}, b, t);
    } else {
      var u :| u in Visited(files, c, branches) && FoundAs(files, c, u.parent, t);
      ParentIsLive(files, c, branches, u);
      WalksMeet(files, c, branches, {}, u, t);
    }
    var u :| u in Visited(files, c, branches) && c.Cas(t) in Marks(u, c);
  }

  lemma {:induction false} AncestorsAreLive(files: seq<File>, c: Codec, branches: seq<BranchRef>, t: Snapshot, n: nat,
                                            s: Snapshot)
    requires Live(files, c, branches, t) && Find(files, c, t.id) == Some(t)
    requires Ancestor(files, c, Some(t.id), n) == Some(s)
    ensures Live(files, c, branches, s)
  {
    if n > 0 {
      AncestorEarlier(files, c, Some(t.id), n - 1);
      var a := Ancestor(files, c, Some(t.id), n - 1).value;
      AncestorStep(files, c, Some(t.id), n - 1);
      AncestorsAreLive(files, c, branches, t, n - 1, a);
      ParentIsLive(files, c, branches, a);
    }
  }

  lemma {:induction false} AncestorEarlier(files: seq<File>, c: Codec, id: Option<ObjectId>, n: nat)
    requires Ancestor(files, c, id, n + 1).Some?
    ensures Ancestor(files, c, id, n).Some?
    decreases n
  {
    if n > 0 {
      AncestorEarlier(files, c, Find(files, c, id.value).value.parent, n - 1);
    }
  }

  /** `s` is a snapshot that marking passes over, or an ancestor of one. */
  ghost predicate Behind(files: seq<File>, c: Codec, branches: seq<BranchRef>, s: Snapshot) {
    exists t, n: nat :: PassedOver(files, c, branches, t) && Ancestor(files, c, Some(t.id), n) == Some(s)
  }

  lemma {:induction false} PassedOverFound(files: seq<File>, c: Codec, branches: seq<BranchRef>, t: Snapshot)
    requires PassedOver(files, c, branches, t)
    ensures Find(files, c, t.id) == Some(t) && Ancestor(files, c, Some(t.id), 0) == Some(t)
    ensures Behind(files, c, branches, t)
  {
  }

  /** Every live snapshot is visited or lies behind one that was passed over. */
  lemma {:induction false} VisitedOrBehind(files: seq<File>, c: Codec, branches: seq<BranchRef>, b: BranchRef, n: nat,
                                           s: Snapshot)
    requires b in branches && Ancestor(files, c, Head(b), n) == Some(s)
    ensures s in Visited(files, c, branches) || Behind(files, c, branches, s)
    decreases n
  {
    if n == 0 {
      assert FoundAs(files, c, Head(b), s);
      if s !in Visited(files, c, branches) {
        PassedOverFound(files, c, branches, s);
      }
    } else {
      AncestorEarlier(files, c, Head(b), n - 1);
      var a := Ancestor(files, c, Head(b), n - 1).value;
      AncestorStep(files, c, Head(b), n - 1);
      VisitedOrBehind(files, c, branches, b, n - 1, a);
      assert FoundAs(files, c, a.parent, s);
      if a in Visited(files, c, branches) {
        if s !in Visited(files, c, branches) {
          PassedOverFound(files, c, branches, s);
        }
      } else {
        BehindGoesOn(files, c, branches, a, s);
      }
    }
  }

  lemma {:induction false} BehindGoesOn(files: seq<File>, c: Codec, branches: seq<BranchRef>, a: Snapshot, s: Snapshot)
    requires Behind(files, c, branches, a) && FoundAs(files, c, a.parent, s)
    ensures Behind(files, c, branches, s)
  {
    var t, m: nat :| PassedOver(files, c, branches, t) && Ancestor(files, c, Some(t.id), m) == Some(a);
    AncestorStep(files, c, Some(t.id), m);
    assert Ancestor(files, c, Some(t.id), m + 1) == Some(s);
  }

  /** The marked ids are exactly those that live snapshots keep alive. */
  ghost predicate MarksAllLive(files: seq<File>, c: Codec, branches: seq<BranchRef>) {
    forall x :: x in Reachable(files, c, branches) <==> exists s :: Live(files, c, branches, s) && x in Marks(s, c)
  }

  /** Exactly which alias loses marks: marking is exact if and only if no snapshot that it passes over, and
      no ancestor of one, keeps an id alive that the visited snapshots do not. */
  lemma {:induction false} MarkingExactIff(files: seq<File>, c: Codec, branches: seq<BranchRef>)
    ensures MarksAllLive(files, c, branches) <==>
              forall s :: Behind(files, c, branches, s) ==> Marks(s, c) <= Union(Visited(files, c, branches), c)
  {
    ReachableIsVisited(files, c, branches);
    if MarksAllLive(files, c, branches) {
      forall s | Behind(files, c, branches, s) ensures Marks(s, c) <= Union(Visited(files, c, branches), c) {
        BehindIsLive(files, c, branches, s);
        assert forall x :: x in Marks(s, c) ==> x in Reachable(files, c, branches);
      }
    }
    if forall s :: Behind(files, c, branches, s) ==> Marks(s, c) <= Union(Visited(files, c, branches), c) {
      forall x
        ensures x in Reachable(files, c, branches) <==> exists s :: Live(files, c, branches, s) && x in Marks(s, c)
      {
        MarkedIffKept(files, c, branches, x);
      }
    }
  }

  lemma {:induction false} BehindIsLive(files: seq<File>, c: Codec, branches: seq<BranchRef>, s: Snapshot)
    requires Behind(files, c, branches, s)
    ensures Live(files, c, branches, s)
  {
    var t, n: nat :| PassedOver(files, c, branches, t) && Ancestor(files, c, Some(t.id), n) == Some(s);
    PassedOverIsAlias(files, c, branches, t);
    PassedOverFound(files, c, branches, t);
    AncestorsAreLive(files, c, branches, t, n, s);
  }

  lemma {:induction false} MarkedIffKept(files: seq<File>, c: Codec, branches: seq<BranchRef>, x: ObjectId)
    requires forall s :: Behind(files, c, branches, s) ==> Marks(s, c) <= Union(Visited(files, c, branches), c)
    ensures x in Reachable(files, c, branches) <==> exists s :: Live(files, c, branches, s) && x in Marks(s, c)
  {
    ReachableIsVisited(files, c, branches);
    if x in Reachable(files, c, branches) {
      var u :| u in Visited(files, c, branches) && x in Marks(u, c);
    }
    if s :| Live(files, c, branches, s) && x in Marks(s, c) {
      var b, n: nat :| b in branches && Ancestor(files, c, Head(b), n) == Some(s);
      VisitedOrBehind(files, c, branches, b, n, s);
    }
  }

  lemma {:induction false} NothingPassedOver(files: seq<File>, c: Codec, branches: seq<BranchRef>)
    requires NoAliases(files, c, branches)
    ensures forall t :: !PassedOver(files, c, branches, t)
  {
    ReachableIsVisited(files, c, branches);
    forall t ensures !PassedOver(files, c, branches, t) {
      if PassedOver(files, c, branches, t) {
        PassedOverIsAlias(files, c, branches, t);
      }
    }
  }

  /** Marking is exact: the marked ids are the content, graph-root, change and report ids of
      the snapshots on the branches' parent chains, although every walk stops at the first
      snapshot it finds marked. */
  lemma {:induction false} MarkingExact(files: seq<File>, c: Codec, branches: seq<BranchRef>, x: ObjectId)
    requires NoAliases(files, c, branches)
    ensures x in Reachable(files, c, branches) <==> exists s :: Live(files, c, branches, s) && x in Marks(s, c)
  {
    NothingPassedOver(files, c, branches);
    MarkedIffKept(files, c, branches, x);
  }

  /** Without that condition history is lost: if a snapshot records its parent's content id as
      the change it applied, the walk takes the parent for already visited, and everything the live
      parent keeps alive but the child does not is left unmarked. */
  lemma {:induction false} AliasStopsTheWalk(files: seq<File>, c: Codec, t: Snapshot, s: Snapshot)
    requires Find(files, c, t.id) == Some(t) && t.parent == Some(s.id) && Find(files, c, s.id) == Some(s)
    requires c.Cas(s) in OptSet(t.change) + OptSet(t.report) + {t.graphRoot}
    ensures Reachable(files, c, [Points(t.id)]) == Marks(t, c)
    ensures Live(files, c, [Points(t.id)], s)
    ensures forall x :: x in Marks(s, c) - Marks(t, c) ==> x !in Reachable(files, c, [Points(t.id)])
  {
    var branches := [Points(t.id)];
    assert Ancestor(files, c, Some(s.id), 0) == Some(s);
    assert Ancestor(files, c, Head(branches[0]), 1) == Some(s);
    var none: set<ObjectId> := {};
    assert none + Marks(t, c) == Marks(t, c);
    assert c.Cas(s) in Marks(t, c);
    assert MarkFrom(files, c, Some(s.id), Marks(t, c)) == Marks(t, c);
    assert MarkFrom(files, c, Some(t.id), none) == MarkFrom(files, c, t.parent, none + Marks(t, c));
    assert branches[1..] == [];
    assert MarkAll(files, c, [], Marks(t, c)) == Marks(t, c);
  }

  // ---------------------------------------------------------------- collection keeps what is marked

  function Sweep(files: seq<File>, marked: set<ObjectId>): seq<File> {
    Retain(files, (f: File) => f.name in marked)
  }

  /** The file a lookup found. */
  function FoundAt(files: seq<File>, c: Codec, id: ObjectId): (r: Option<nat>)
    ensures r.Some? <==> Find(files, c, id).Some?
    ensures r.Some? ==>
              && r.value < |files| && Holds(files[r.value], c, id)
              && c.decode(files[r.value].bytes) == Find(files, c, id)
    ensures r.Some? ==> forall j :: 0 <= j < r.value ==> !Holds(files[j], c, id)
  {
    if files == [] then None
    else if Holds(files[0], c, id) then Some(0)
    else match FoundAt(files[1..], c, id) case Some(i) => Some(i + 1) case None => None
  }

  lemma {:induction false} SweepKeepsLookup(files: seq<File>, c: Codec, id: ObjectId, marked: set<ObjectId>)
    requires FoundAt(files, c, id).Some? ==> files[FoundAt(files, c, id).value].name in marked
    ensures Find(Sweep(files, marked), c, id) == Find(files, c, id)
  {
    if files != [] {
      var rest := files[1..];
      if Holds(files[0], c, id) {
        assert Sweep(files, marked)[0] == files[0];
      } else {
        SweepKeepsLookup(rest, c, id, marked);
        if files[0].name in marked {
          assert Sweep(files, marked)[1..] == Sweep(rest, marked);
        }
      }
    }
  }

  /** Re-encoding a stored snapshot gives its bytes back. */
  ghost predicate Canonical(files: seq<File>, c: Codec) {
    forall i :: 0 <= i < |files| ==> var s := c.decode(files[i].bytes); s.Some? ==> c.encode(s.value) == files[i].bytes
  }

  /** In a clean canonical store a snapshot's file is named by its content id. */
  lemma {:induction false} FoundIsNamedByCas(files: seq<File>, c: Codec, id: ObjectId)
    requires Clean(files, c) && Canonical(files, c) && FoundAt(files, c, id).Some?
    ensures files[FoundAt(files, c, id).value].name == c.Cas(Find(files, c, id).value)
  {
    assert Intact(files[FoundAt(files, c, id).value], c);
  }

  lemma {:induction false} MarkFromGrows(files: seq<File>, c: Codec, next: Option<ObjectId>, marked: set<ObjectId>)
    ensures marked <= MarkFrom(files, c, next, marked)
    ensures next.Some? && Find(files, c, next.value).Some?
            ==> c.Cas(Find(files, c, next.value).value) in MarkFrom(files, c, next, marked)
    decreases |CasSet(files, c) - marked|
  {
    if next.Some? && Find(files, c, next.value).Some? {
      var s := Find(files, c, next.value).value;
      if c.Cas(s) !in marked {
        FoundIsCounted(files, c, next.value);
        Shrinks(CasSet(files, c), marked, c.Cas(s), Marks(s, c));
        MarkFromGrows(files, c, s.parent, marked + Marks(s, c));
      }
    }
  }

  lemma {:induction false} MarkAllGrows(files: seq<File>, c: Codec, branches: seq<BranchRef>, marked: set<ObjectId>)
    ensures marked <= MarkAll(files, c, branches, marked)
  {
    if branches != [] {
      MarkFromGrows(files, c, Head(branches[0]), marked);
      MarkAllGrows(files, c, branches[1..], MarkFrom(files, c, Head(branches[0]), marked));
    }
  }

  /** A walk sees the same snapshots before and after a sweep that keeps all it marks. */
  lemma {:induction false} SweepKeepsWalk(files: seq<File>, c: Codec, next: Option<ObjectId>, marked: set<ObjectId>,
                                          keep: set<ObjectId>)
    requires Clean(files, c) && Canonical(files, c) && MarkFrom(files, c, next, marked) <= keep
    ensures MarkFrom(Sweep(files, keep), c, next, marked) == MarkFrom(files, c, next, marked)
    decreases |CasSet(files, c) - marked|
  {
    if next.Some? {
      MarkFromGrows(files, c, next, marked);
      if FoundAt(files, c, next.value).Some? {
        FoundIsNamedByCas(files, c, next.value);
      }
      SweepKeepsLookup(files, c, next.value, keep);
      if Find(files, c, next.value).Some? {
        var s := Find(files, c, next.value).value;
        if c.Cas(s) !in marked {
          FoundIsCounted(files, c, next.value);
          Shrinks(CasSet(files, c), marked, c.Cas(s), Marks(s, c));
          SweepKeepsWalk(files, c, s.parent, marked + Marks(s, c), keep);
        }
      }
    }
  }

  lemma {:induction false} SweepKeepsWalks(files: seq<File>, c: Codec, branches: seq<BranchRef>,
                                           marked: set<ObjectId>, keep: set<ObjectId>)
    requires Clean(files, c) && Canonical(files, c) && MarkAll(files, c, branches, marked) <= keep
    ensures MarkAll(Sweep(files, keep), c, branches, marked) == MarkAll(files, c, branches, marked)
  {
    if branches != [] {
      var walked := MarkFrom(files, c, Head(branches[0]), marked);
      MarkAllGrows(files, c, branches[1..], walked);
      SweepKeepsWalk(files, c, Head(branches[0]), marked, keep);
      SweepKeepsWalks(files, c, branches[1..], walked, keep);
    }
  }

  /** Collection leaves the marked set unchanged, so a second collection removes nothing. */
  lemma {:induction false} CollectionIsStable(files: seq<File>, c: Codec, branches: seq<BranchRef>)
    requires Clean(files, c) && Canonical(files, c)
    ensures var kept := Sweep(files, Reachable(files, c, branches));
            Reachable(kept, c, branches) == Reachable(files, c, branches)
            && Sweep(kept, Reachable(kept, c, branches)) == kept
  {
    var marked := Reachable(files, c, branches);
    var kept := Sweep(files, marked);
    SweepKeepsWalks(files, c, branches, {}, marked);
    RetainMembers(files, (f: File) => f.name in marked);
    RetainAll(kept, (f: File) => f.name in marked);
  }

  /** What collection keeps, exactly: the files named by an id that some live snapshot keeps
      alive. Audit and migration records listed in an envelope are not among those ids. */
  lemma {:induction false} CollectionExact(files: seq<File>, c: Codec, branches: seq<BranchRef>, f: File)
    requires NoAliases(files, c, branches) && f in files
    ensures f in Sweep(files, Reachable(files, c, branches))
            <==> exists s :: Live(files, c, branches, s) && f.name in Marks(s, c)
  {
    MarkingExact(files, c, branches, f.name);
    var marked := Reachable(files, c, branches);
    RetainMembers(files, (g: File) => g.name in marked);
  }

  /** In a clean canonical store every live snapshot is still found after a collection. */
  lemma {:induction false} LiveSnapshotSurvives(files: seq<File>, c: Codec, branches: seq<BranchRef>, b: BranchRef,
                                                n: nat, s: Snapshot)
    requires Clean(files, c) && Canonical(files, c) && NoAliases(files, c, branches)
    requires b in branches && Ancestor(files, c, Head(b), n) == Some(s)
    ensures Find(Sweep(files, Reachable(files, c, branches)), c, s.id) == Find(files, c, s.id) == Some(s)
  {
    AncestorIsFound(files, c, Head(b), n);
    FoundIsNamedByCas(files, c, s.id);
    assert Live(files, c, branches, s) && c.Cas(s) in Marks(s, c);
    MarkingExact(files, c, branches, c.Cas(s));
    SweepKeepsLookup(files, c, s.id, Reachable(files, c, branches));
  }

  lemma {:induction false} AncestorIsFound(files: seq<File>, c: Codec, id: Option<ObjectId>, n: nat)
    requires Ancestor(files, c, id, n).Some?
    ensures Find(files, c, Ancestor(files, c, id, n).value.id) == Ancestor(files, c, id, n)
    decreases n
  {
    if n > 0 {
      AncestorIsFound(files, c, Find(files, c, id.value).value.parent, n - 1);
    }
  }

  /** Without canonical bytes a live snapshot can be lost: stored under the hash of bytes that
      re-encoding does not reproduce, it is marked under a name no file has. */
  lemma {:induction false} NonCanonicalSnapshotIsSwept(c: Codec, f: File, s: Snapshot)
    requires Intact(f, c) && c.decode(f.bytes) == Some(s) && s.parent == None
    requires f.name !in Marks(s, c)
    ensures Live([f], c, [Points(s.id)], s)
    ensures Sweep([f], Reachable([f], c, [Points(s.id)])) == []
  {
    var files, branches := [f], [Points(s.id)];
    assert Holds(files[0], c, s.id);
    assert Ancestor(files, c, Head(branches[0]), 0) == Some(s);
    var none: set<ObjectId> := {};
    assert MarkFrom(files, c, Some(s.id), none) == MarkFrom(files, c, None, none + Marks(s, c));
    assert none + Marks(s, c) == Marks(s, c);
    assert branches[1..] == [];
    assert MarkAll(files, c, [], Marks(s, c)) == Marks(s, c);
    assert Reachable(files, c, branches) == Marks(s, c);
  }

  // ---------------------------------------------------------------- accounting

  function TotalBytes(files: seq<File>): nat {
    if files == [] then 0 else |files[0].bytes| + TotalBytes(files[1..])
  }

  lemma {:induction false} TotalBytesAppend(files: seq<File>, f: File)
    ensures TotalBytes(files + [f]) == TotalBytes(files) + |f.bytes|
  {
    if files != [] {
      assert (files + [f])[1..] == files[1..] + [f];
      TotalBytesAppend(files[1..], f);
    }
  }

  datatype GcReport = GcReport(objectsBefore: nat, objectsAfter: nat, bytesFreed: nat)

  datatype DoctorReport = DoctorReport(total: nat, valid: nat, corrupted: nat, unreachable: nat)

  /** Number of intact files whose id is not in `marked`. */
  function UnreachableCount(files: seq<File>, c: Codec, marked: set<ObjectId>): nat {
    |Retain(files, (f: File) => c.hash(f.bytes) == f.name && f.name !in marked)|
  }

  /** What a report takes for marked: nothing when the marking failed. */
  function Kept(marked: Result<set<ObjectId>, StorageError>): set<ObjectId> {
    if marked.Ok? then marked.value else {}
  }

  class ObjectStore {
    var files: seq<File>
    const branches: seq<BranchRef>

    constructor (files: seq<File>, branches: seq<BranchRef>)
      ensures this.files == files && this.branches == branches
    {
      this.files, this.branches := files, branches;
    }

    /** Delete every object that is not marked. Objects and bytes are conserved: what was there
        is what is left plus what was freed. An error leaves the store as it was. */
    method Gc(c: Codec) returns (r: Result<GcReport, StorageError>)
      modifies this
      ensures Clean(old(files), c) && Malformed !in branches ==> r.Ok?
      ensures r.Err? <==> WalkAll(old(files), c, branches, {}).Err?
      ensures r.Err? ==> files == old(files) && r.error == WalkAll(files, c, branches, {}).error
      ensures r.Ok? ==> files == Sweep(old(files), Reachable(old(files), c, branches))
      ensures r.Ok? ==> r.value.objectsBefore == |old(files)| && r.value.objectsAfter == |files|
      ensures r.Ok? ==> TotalBytes(old(files)) == TotalBytes(files) + r.value.bytesFreed
    {
      var reachable := ReachableObjects(files, c, branches);
      if reachable.Err? {
        return Err(reachable.error);
      }
      var marked := reachable.value;
      var before: nat, after: nat, freed: nat := 0, 0, 0;
      var listing := files;
      files := [];
      for i := 0 to |listing|
        invariant files == Sweep(listing[..i], marked)
        invariant before == i && after == |files|
        invariant TotalBytes(listing[..i]) == TotalBytes(files) + freed
      {
        assert listing[..i + 1] == listing[..i] + [listing[i]];
        RetainConcat(listing[..i], [listing[i]], (f: File) => f.name in marked);
        TotalBytesAppend(listing[..i], listing[i]);
        before := before + 1;
        if listing[i].name in marked {
          after := after + 1;
          TotalBytesAppend(files, listing[i]);
          files := files + [listing[i]];
        } else {
          freed := freed + |listing[i].bytes|;
        }
      }
      assert listing[..|listing|] == listing;
      return Ok(GcReport(before, after, freed));
    }

    /** Verify every object and count the unreachable ones. A marking that fails because of
        damaged data counts everything intact as unreachable. */
    method Doctor(c: Codec) returns (r: DoctorReport)
      ensures r.total == |files| == r.valid + r.corrupted
      ensures r.valid == |Retain(files, (f: File) => c.hash(f.bytes) == f.name)|
      ensures Clean(files, c) ==> r.corrupted == 0
      ensures r.unreachable == UnreachableCount(files, c, Kept(WalkAll(files, c, branches, {})))
      ensures Clean(files, c) && Malformed !in branches
              ==> r.unreachable == UnreachableCount(files, c, Reachable(files, c, branches))
    {
      var ids: seq<File> := [];
      var corrupted := 0;
      for i := 0 to |files|
        invariant ids == Retain(files[..i], (f: File) => c.hash(f.bytes) == f.name)
        invariant |ids| + corrupted == i
        invariant Clean(files, c) ==> corrupted == 0
      {
        assert files[..i + 1] == files[..i] + [files[i]];
        RetainConcat(files[..i], [files[i]], (f: File) => c.hash(f.bytes) == f.name);
        if c.hash(files[i].bytes) == files[i].name {
          ids := ids + [files[i]];
        } else {
          assert !Intact(files[i], c);
          corrupted := corrupted + 1;
        }
      }
      assert files[..|files|] == files;
      var reachable := ReachableObjects(files, c, branches);
      var marked := if reachable.Ok? then reachable.value else {};
      var unreachable := Retain(ids, (f: File) => f.name !in marked);
      RetainTwice(files, (f: File) => c.hash(f.bytes) == f.name, (f: File) => f.name !in marked,
                  (f: File) => c.hash(f.bytes) == f.name && f.name !in marked);
      return DoctorReport(|ids| + corrupted, |ids|, corrupted, |unreachable|);
    }
  }

  lemma {:induction false} RetainTwice<T>(s: seq<T>, f: T -> bool, g: T -> bool, both: T -> bool)
    requires forall i :: 0 <= i < |s| ==> (both(s[i]) <==> f(s[i]) && g(s[i]))
    ensures Retain(Retain(s, f), g) == Retain(s, both)
  {
    if s != [] {
      RetainTwice(s[1..], f, g, both);
      assert both(s[0]) <==> f(s[0]) && g(s[0]);
      if f(s[0]) {
        assert ([s[0]] + Retain(s[1..], f))[1..] == Retain(s[1..], f);
      }
    }
  }

  /** After a collection of a clean canonical store the report finds nothing unreachable. */
  lemma {:induction false} NothingUnreachableAfterGc(files: seq<File>, c: Codec, branches: seq<BranchRef>)
    requires Clean(files, c) && Canonical(files, c)
    ensures var kept := Sweep(files, Reachable(files, c, branches));
            Clean(kept, c) && UnreachableCount(kept, c, Reachable(kept, c, branches)) == 0
  {
    var marked := Reachable(files, c, branches);
    var kept := Sweep(files, marked);
    CollectionIsStable(files, c, branches);
    RetainMembers(files, (f: File) => f.name in marked);
    forall i | 0 <= i < |kept| ensures Intact(kept[i], c) {
      assert kept[i] in kept;
      var j :| 0 <= j < |files| && files[j] == kept[i];
    }
    RetainNone(kept, (f: File) => c.hash(f.bytes) == f.name && f.name !in marked);
  }
}
