/** The content-addressed object store: finding snapshots, and marking what the branches reach. */
module Store {
  import opened Base

  type Bytes = seq<bv8>

  datatype ObjectId = ObjectId(hex: string)

  /** A snapshot envelope. `id` is assigned by the caller and is not the hash of the bytes. */
  datatype Snapshot = Snapshot(
    id: ObjectId,
    graphRoot: ObjectId,
    parent: Option<ObjectId>,
    change: Option<ObjectId>,
    createdAt: nat,
    report: Option<ObjectId>,
    auditRecords: seq<ObjectId>)

  /** The hash and the snapshot codec, as functions nothing is assumed about. */
  datatype Codec = Codec(
    hash: Bytes -> ObjectId,
    encode: Snapshot -> Bytes,
    decode: Bytes -> Option<Snapshot>)
  {
    /** The content id a snapshot is marked under: the hash of its re-encoding. */
    function Cas(s: Snapshot): ObjectId {
      hash(encode(s))
    }
  }

  /** An object file: the id its name spells and its contents. */
  datatype File = File(name: ObjectId, bytes: Bytes)

  /** A branch ref as read: empty, pointing to a snapshot, or not an id at all. */
  datatype BranchRef = Empty | Points(id: ObjectId) | Malformed

  datatype StorageError = CorruptObject(name: ObjectId) | BadRef

  // ---------------------------------------------------------------- finding snapshots

  predicate Intact(f: File, c: Codec) {
    c.hash(f.bytes) == f.name
  }

  /** Every object hashes to its name. */
  ghost predicate Clean(files: seq<File>, c: Codec) {
    forall i :: 0 <= i < |files| ==> Intact(files[i], c)
  }

  predicate Holds(f: File, c: Codec, id: ObjectId) {
    c.decode(f.bytes).Some? && c.decode(f.bytes).value.id == id
  }

  /** The first snapshot in listing order whose envelope id is `id`. */
  function Find(files: seq<File>, c: Codec, id: ObjectId): (r: Option<Snapshot>)
    ensures r.Some? ==> r.value.id == id
  {
    if files == [] then None
    else if Holds(files[0], c, id) then c.decode(files[0].bytes)
    else Find(files[1..], c, id)
  }

  /** The same scan with its checks: every object passed on the way must hash to its name. */
  function Lookup(files: seq<File>, c: Codec, id: ObjectId): Result<Option<Snapshot>, StorageError> {
    if files == [] then Ok(None)
    else if !Intact(files[0], c) then Err(CorruptObject(files[0].name))
    else if Holds(files[0], c, id) then Ok(c.decode(files[0].bytes))
    else Lookup(files[1..], c, id)
  }

  /** The scan fails exactly when it meets a damaged object before the snapshot, and otherwise finds it. */
  lemma {:induction false} LookupIs(files: seq<File>, c: Codec, id: ObjectId)
    ensures Lookup(files, c, id).Ok? ==> Lookup(files, c, id).value == Find(files, c, id)
    ensures Lookup(files, c, id).Err? <==>
            exists i :: 0 <= i < |files| && !Intact(files[i], c)
                        && forall j :: 0 <= j < i ==> Intact(files[j], c) && !Holds(files[j], c, id)
  {
    if files != [] && Intact(files[0], c) && !Holds(files[0], c, id) {
      LookupIs(files[1..], c, id);
      if Lookup(files, c, id).Err? {
        var i :| 0 <= i < |files| - 1 && !Intact(files[1..][i], c)
                 && forall j :: 0 <= j < i ==> Intact(files[1..][j], c) && !Holds(files[1..][j], c, id);
        assert forall j :: 0 < j < i + 1 ==> files[j] == files[1..][j - 1];
        assert files[i + 1] == files[1..][i];
      }
      if i :| 0 <= i < |files| && !Intact(files[i], c)
              && forall j :: 0 <= j < i ==> Intact(files[j], c) && !Holds(files[j], c, id) {
        assert files[1..][i - 1] == files[i];
        assert forall j :: 0 <= j < i - 1 ==> files[1..][j] == files[j + 1];
      }
    }
  }

  lemma {:induction false} LookupClean(files: seq<File>, c: Codec, id: ObjectId)
    requires Clean(files, c)
    ensures Lookup(files, c, id) == Ok(Find(files, c, id))
  {
    if files != [] && !Holds(files[0], c, id) {
      LookupClean(files[1..], c, id);
    }
  }

  /** Scan the directory for a snapshot, verifying every object on the way. */
  method FindSnapshot(files: seq<File>, c: Codec, id: ObjectId) returns (r: Result<Option<Snapshot>, StorageError>)
    ensures r == Lookup(files, c, id)
  {
    for i := 0 to |files|
      invariant Lookup(files, c, id) == Lookup(files[i..], c, id)
    {
      var file := files[i];
      assert files[i..][1..] == files[i + 1..];
      if c.hash(file.bytes) != file.name {
        return Err(CorruptObject(file.name));
      }
      var snapshot := c.decode(file.bytes);
      if snapshot.Some? && snapshot.value.id == id {
        return Ok(snapshot);
      }
    }
    return Ok(None);
  }

  // ---------------------------------------------------------------- marking

  function OptSet(o: Option<ObjectId>): set<ObjectId> {
    if o.Some? then {o.value} else {}
  }

  /** The ids one reached snapshot keeps alive. */
  function Marks(s: Snapshot, c: Codec): set<ObjectId> {
    {c.Cas(s), s.graphRoot} + OptSet(s.change) + OptSet(s.report)
  }

  /** The content ids of all snapshots in the store: they bound every walk. */
  function CasSet(files: seq<File>, c: Codec): set<ObjectId> {
    if files == [] then {}
    else CasSet(files[1..], c) + match c.decode(files[0].bytes) case Some(s) => {c.Cas(s)} case None => {}
  }

  lemma {:induction false} FoundIsCounted(files: seq<File>, c: Codec, id: ObjectId)
    ensures Find(files, c, id).Some? ==> c.Cas(Find(files, c, id).value) in CasSet(files, c)
  {
    if files != [] && !Holds(files[0], c, id) {
      FoundIsCounted(files[1..], c, id);
    }
  }

  lemma {:induction false} Shrinks(all: set<ObjectId>, marked: set<ObjectId>, x: ObjectId, more: set<ObjectId>)
    requires x in all && x !in marked && x in more
    ensures |all - (marked + more)| < |all - marked|
  {
    assert all - (marked + more) <= (all - marked) - {x};
    SubsetSize(all - (marked + more), (all - marked) - {x});
  }

  lemma {:induction false} SubsetSize<T>(a: set<T>, b: set<T>)
    requires a <= b
    ensures |a| <= |b|
  {
    if a != {} {
      var x :| x in a;
      SubsetSize(a - {x}, b - {x});
    }
  }

  /** Follow parents from `next`, stopping at the first snapshot whose content id is already
      marked. Terminates on every store, cyclic histories included. */
  function MarkFrom(files: seq<File>, c: Codec, next: Option<ObjectId>, marked: set<ObjectId>): set<ObjectId>
    decreases |CasSet(files, c) - marked|
  {
    if next.None? then marked
    else
      match Find(files, c, next.value)
      case None => marked
      case Some(s) =>
        if c.Cas(s) in marked then marked
        else
          FoundIsCounted(files, c, next.value);
          Shrinks(CasSet(files, c), marked, c.Cas(s), Marks(s, c));
          MarkFrom(files, c, s.parent, marked + Marks(s, c))
  }

  function Head(b: BranchRef): Option<ObjectId> {
    if b.Points? then Some(b.id) else None
  }

  function MarkAll(files: seq<File>, c: Codec, branches: seq<BranchRef>, marked: set<ObjectId>): set<ObjectId> {
    if branches == [] then marked
    else MarkAll(files, c, branches[1..], MarkFrom(files, c, Head(branches[0]), marked))
  }

  /** The ids reached from the branches. */
  function Reachable(files: seq<File>, c: Codec, branches: seq<BranchRef>): set<ObjectId> {
    MarkAll(files, c, branches, {})
  }

  // ---------------------------------------------------------------- marking with its failures

  /** One walk as it goes: a lookup that fails ends it. */
  function Walk(files: seq<File>, c: Codec, next: Option<ObjectId>, marked: set<ObjectId>)
    : Result<set<ObjectId>, StorageError>
    decreases |CasSet(files, c) - marked|
  {
    if next.None? then Ok(marked)
    else
      match Lookup(files, c, next.value)
      case Err(e) => Err(e)
      case Ok(None) => Ok(marked)
      case Ok(Some(s)) =>
        if c.Cas(s) in marked then Ok(marked)
        else
          LookupIs(files, c, next.value);
          FoundIsCounted(files, c, next.value);
          Shrinks(CasSet(files, c), marked, c.Cas(s), Marks(s, c));
          Walk(files, c, s.parent, marked + Marks(s, c))
  }

  function WalkAll(files: seq<File>, c: Codec, branches: seq<BranchRef>, marked: set<ObjectId>)
    : Result<set<ObjectId>, StorageError>
  {
    if branches == [] then Ok(marked)
    else if branches[0].Malformed? then Err(BadRef)
    else
      match Walk(files, c, Head(branches[0]), marked)
      case Err(e) => Err(e)
      case Ok(more) => WalkAll(files, c, branches[1..], more)
  }

  /** A walk that succeeds marks what the branch reaches, and on a clean store it does succeed. */
  lemma {:induction false} WalkMarks(files: seq<File>, c: Codec, next: Option<ObjectId>, marked: set<ObjectId>)
    ensures Walk(files, c, next, marked).Ok? ==> Walk(files, c, next, marked).value == MarkFrom(files, c, next, marked)
    ensures Clean(files, c) ==> Walk(files, c, next, marked).Ok?
    decreases |CasSet(files, c) - marked|
  {
    if next.Some? {
      LookupIs(files, c, next.value);
      if Clean(files, c) {
        LookupClean(files, c, next.value);
      }
      var found := Lookup(files, c, next.value);
      if found.Ok? && found.value.Some? && c.Cas(found.value.value) !in marked {
        var s := found.value.value;
        FoundIsCounted(files, c, next.value);
        Shrinks(CasSet(files, c), marked, c.Cas(s), Marks(s, c));
        WalkMarks(files, c, s.parent, marked + Marks(s, c));
      }
    }
  }

  lemma {:induction false} WalkAllMarks(files: seq<File>, c: Codec, branches: seq<BranchRef>, marked: set<ObjectId>)
    ensures WalkAll(files, c, branches, marked).Ok? ==>
            WalkAll(files, c, branches, marked).value == MarkAll(files, c, branches, marked)
    ensures Clean(files, c) && Malformed !in branches ==> WalkAll(files, c, branches, marked).Ok?
    decreases |branches|
  {
    if branches != [] && !branches[0].Malformed? {
      WalkMarks(files, c, Head(branches[0]), marked);
      var walked := Walk(files, c, Head(branches[0]), marked);
      if walked.Ok? {
        WalkAllMarks(files, c, branches[1..], walked.value);
      }
    }
  }

  /** Mark a snapshot and what it refers to. */
  method MarkSnapshot(marked: set<ObjectId>, snapshot: Snapshot, c: Codec) returns (r: set<ObjectId>)
    ensures r == marked + Marks(snapshot, c)
  {
    r := marked + {c.hash(c.encode(snapshot))};
    r := r + {snapshot.graphRoot};
    if snapshot.change.Some? {
      r := r + {snapshot.change.value};
    }
    if snapshot.report.Some? {
      r := r + {snapshot.report.value};
    }
  }

  /** One branch walk. */
  method WalkBranch(files: seq<File>, c: Codec, head: Option<ObjectId>, start: set<ObjectId>)
    returns (r: Result<set<ObjectId>, StorageError>)
    ensures r == Walk(files, c, head, start)
  {
    var next, marked := head, start;
    while next.Some?
      invariant Walk(files, c, next, marked) == Walk(files, c, head, start)
      decreases |CasSet(files, c) - marked|, next.Some?
    {
      var found := FindSnapshot(files, c, next.value);
      if found.Err? {
        return Err(found.error);
      }
      if found.value.None? {
        break;
      }
      var snapshot := found.value.value;
      var cas := c.hash(c.encode(snapshot));
      if cas in marked {
        break;
      }
      LookupIs(files, c, next.value);
      FoundIsCounted(files, c, next.value);
      Shrinks(CasSet(files, c), marked, cas, Marks(snapshot, c));
      marked := MarkSnapshot(marked, snapshot, c);
      next := snapshot.parent;
    }
    return Ok(marked);
  }

  /** Mark everything the branches reach. */
  method ReachableObjects(files: seq<File>, c: Codec, branches: seq<BranchRef>)
    returns (r: Result<set<ObjectId>, StorageError>)
    ensures r == WalkAll(files, c, branches, {})
    ensures r.Ok? ==> r.value == Reachable(files, c, branches)
    ensures Clean(files, c) && Malformed !in branches ==> r.Ok?
  {
    WalkAllMarks(files, c, branches, {});
    var marked := {};
    for i := 0 to |branches|
      invariant WalkAll(files, c, branches[i..], marked) == WalkAll(files, c, branches, {})
    {
      assert branches[i..][1..] == branches[i + 1..];
      if branches[i].Malformed? {
        return Err(BadRef);
      }
      var walked := WalkBranch(files, c, Head(branches[i]), marked);
      if walked.Err? {
        return Err(walked.error);
      }
      marked := walked.value;
    }
    return Ok(marked);
  }
}
