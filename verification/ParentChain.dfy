/** The numeric id of a snapshot: the length of its parent chain. */
module ParentChain {
  import opened Base
  import opened Store

  /** Snapshots by envelope id, as the store loads them. */
  type SnapshotIndex = map<ObjectId, Snapshot>

  ghost predicate Consistent(store: SnapshotIndex) {
    forall id :: id in store ==> store[id].id == id
  }

  datatype ChainError = ParentCycle(id: ObjectId) | ParentMissing(id: ObjectId)

  /** The `n`-th ancestor of `s`, counting `s` itself as the 0th. */
  function Nth(store: SnapshotIndex, s: Snapshot, n: nat): Option<Snapshot>
    decreases n
  {
    if n == 0 then Some(s)
    else if s.parent.Some? && s.parent.value in store then Nth(store, store[s.parent.value], n - 1)
    else None
  }

  /** The chain of `s` reaches a snapshot without a parent after `d` steps. */
  ghost predicate EndsAt(store: SnapshotIndex, s: Snapshot, d: nat) {
    Nth(store, s, d).Some? && Nth(store, s, d).value.parent.None?
  }

  /** The chain of `s` reaches a parent that the store does not have. */
  ghost predicate BreaksAt(store: SnapshotIndex, s: Snapshot, d: nat, id: ObjectId) {
    Nth(store, s, d).Some? && Nth(store, s, d).value.parent == Some(id) && id !in store
  }

  /** The chain of `s` never stops. */
  ghost predicate NeverEnds(store: SnapshotIndex, s: Snapshot) {
    forall n: nat :: Nth(store, s, n).Some?
  }

  lemma {:induction false} NthStep(store: SnapshotIndex, s: Snapshot, n: nat)
    requires Nth(store, s, n).Some?
    ensures Nth(store, s, n + 1)
            == var p := Nth(store, s, n).value.parent;
               if p.Some? && p.value in store then Some(store[p.value]) else None
    decreases n
  {
    if n > 0 {
      NthStep(store, store[s.parent.value], n - 1);
    }
  }

  lemma {:induction false} NthEarlier(store: SnapshotIndex, s: Snapshot, m: nat, n: nat)
    requires m <= n && Nth(store, s, n).Some?
    ensures Nth(store, s, m).Some?
    decreases m
  {
    if m > 0 {
      NthEarlier(store, store[s.parent.value], m - 1, n - 1);
    }
  }

  /** Once the chain returns to an earlier position it goes round for ever. */
  lemma {:induction false} LoopForever(store: SnapshotIndex, s: Snapshot, i: nat, d: nat, n: nat) returns (m: nat)
    requires i <= d && Nth(store, s, d + 1).Some? && Nth(store, s, d + 1) == Nth(store, s, i)
    ensures Nth(store, s, n).Some? && m <= d && Nth(store, s, n) == Nth(store, s, m)
    decreases n
  {
    if n <= d {
      NthEarlier(store, s, n, d + 1);
      m := n;
    } else {
      var k := LoopForever(store, s, i, d, n - 1);
      NthEarlier(store, s, k + 1, d + 1);
      NthEarlier(store, s, k, d + 1);
      NthStep(store, s, n - 1);
      NthStep(store, s, k);
      m := if k == d then i else k + 1;
    }
  }

  lemma {:induction false} EndingIsUnique(store: SnapshotIndex, s: Snapshot, d: nat, n: nat)
    requires Nth(store, s, d).Some?
             && (Nth(store, s, d).value.parent.None? || Nth(store, s, d).value.parent.value !in store)
    requires Nth(store, s, n).Some?
    ensures n <= d
  {
    if n > d {
      NthEarlier(store, s, d + 1, n);
      NthStep(store, s, d);
    }
  }

  /** The store as the walk sees it: the snapshot it starts from counts as present under its own id,
      whether or not the store holds it. */
  function Seen(store: SnapshotIndex, s: Snapshot): SnapshotIndex {
    store[s.id := s]
  }

  /** Walk the parents of a snapshot, counting them. Fails exactly when the chain comes back to a
      snapshot it has seen or reaches one that is missing. */
  method SnapshotIdFromParentChain(stored: SnapshotIndex, snapshot: Snapshot) returns (r: Result<nat, ChainError>)
    requires Consistent(stored)
    ensures forall d: nat :: r == Ok(d) <==> EndsAt(Seen(stored, snapshot), snapshot, d)
    ensures forall id :: r == Err(ParentMissing(id)) <==>
              exists d: nat :: BreaksAt(Seen(stored, snapshot), snapshot, d, id)
    ensures r.Err? && r.error.ParentCycle? <==> NeverEnds(Seen(stored, snapshot), snapshot)
  {
    ghost var store := Seen(stored, snapshot);
    var depth: nat := 0;
    var current := snapshot;
    var seen := [current.id];
    while current.parent.Some?
      invariant Nth(store, snapshot, depth) == Some(current)
      invariant |seen| == depth + 1
      invariant forall i :: 0 <= i <= depth ==>
                  Nth(store, snapshot, i).Some? && seen[i] == Nth(store, snapshot, i).value.id
      invariant forall i :: 0 <= i <= depth ==> seen[i] in store && Nth(store, snapshot, i).value == store[seen[i]]
      decreases store.Keys - (set x | x in seen), current.parent.Some?
    {
      var parentId := current.parent.value;
      if parentId in seen {
        var i :| 0 <= i < |seen| && seen[i] == parentId;
        NthStep(store, snapshot, depth);
        CycleNeverEnds(store, snapshot, i, depth);
        return Err(ParentCycle(parentId));
      }
      if parentId !in stored {
        assert BreaksAt(store, snapshot, depth, parentId);
        StopsBroken(store, snapshot, depth, parentId);
        return Err(ParentMissing(parentId));
      }
      NthStep(store, snapshot, depth);
      depth := depth + 1;
      ghost var before := set x | x in seen;
      seen := seen + [parentId];
      assert (set x | x in seen) == before + {parentId};
      assert parentId in store.Keys - before;
      current := stored[parentId];
    }
    StopsEnded(store, snapshot, depth);
    return Ok(depth);
  }

  lemma {:induction false} CycleNeverEnds(store: SnapshotIndex, s: Snapshot, i: nat, d: nat)
    requires i <= d && Nth(store, s, d + 1).Some? && Nth(store, s, d + 1) == Nth(store, s, i)
    ensures NeverEnds(store, s)
    ensures forall n: nat :: !EndsAt(store, s, n)
    ensures forall n: nat, id :: !BreaksAt(store, s, n, id)
  {
    forall n: nat ensures Nth(store, s, n).Some? {
      var m := LoopForever(store, s, i, d, n);
    }
    forall n: nat ensures Nth(store, s, n).value.parent.Some? && Nth(store, s, n).value.parent.value in store {
      NthStep(store, s, n);
      assert Nth(store, s, n + 1).Some?;
    }
  }

  lemma {:induction false} StopsBroken(store: SnapshotIndex, s: Snapshot, d: nat, id: ObjectId)
    requires BreaksAt(store, s, d, id)
    ensures forall n: nat :: !EndsAt(store, s, n)
    ensures forall n: nat, id' :: BreaksAt(store, s, n, id') ==> id' == id
    ensures !NeverEnds(store, s)
  {
    forall n: nat | Nth(store, s, n).Some?
      && (Nth(store, s, n).value.parent.None? || Nth(store, s, n).value.parent.value !in store)
      ensures n == d
    {
      EndingIsUnique(store, s, d, n);
      EndingIsUnique(store, s, n, d);
    }
    NthStep(store, s, d);
    assert Nth(store, s, d + 1).None?;
  }

  lemma {:induction false} StopsEnded(store: SnapshotIndex, s: Snapshot, d: nat)
    requires EndsAt(store, s, d)
    ensures forall n: nat :: EndsAt(store, s, n) <==> n == d
    ensures forall n: nat, id :: !BreaksAt(store, s, n, id)
    ensures !NeverEnds(store, s)
  {
    forall n: nat | Nth(store, s, n).Some?
      && (Nth(store, s, n).value.parent.None? || Nth(store, s, n).value.parent.value !in store)
      ensures n == d
    {
      EndingIsUnique(store, s, d, n);
      EndingIsUnique(store, s, n, d);
    }
    NthStep(store, s, d);
    assert Nth(store, s, d + 1).None?;
  }

  /** A child's id is its parent's id plus one, and it has an id exactly when its parent does. */
  lemma {:induction false} ChildIsParentPlusOne(store: SnapshotIndex, child: Snapshot, parent: Snapshot, d: nat)
    requires child.parent == Some(parent.id) && parent.id in store && store[parent.id] == parent
    ensures EndsAt(store, child, d + 1) <==> EndsAt(store, parent, d)
    ensures NeverEnds(store, child) <==> NeverEnds(store, parent)
  {
    assert Nth(store, child, d + 1) == Nth(store, parent, d);
    if NeverEnds(store, child) {
      forall n: nat ensures Nth(store, parent, n).Some? {
        assert Nth(store, child, n + 1) == Nth(store, parent, n);
      }
    }
    if NeverEnds(store, parent) {
      forall n: nat ensures Nth(store, child, n).Some? {
        if n > 0 {
          assert Nth(store, child, n) == Nth(store, parent, n - 1);
        }
      }
    }
  }
}
