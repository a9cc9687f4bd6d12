/** Shared vocabulary: optional values, results, and the `retain` of a Rust `Vec`. */
module Base {

  const U32_MAX: nat := 0xFFFF_FFFF
  const U64_MAX: nat := 0xFFFF_FFFF_FFFF_FFFF

  datatype Option<+T> = None | Some(value: T) {
    function GetOr(default: T): T {
      match this
      case Some(v) => v
      case None => default
    }

    function OrElse(other: Option<T>): Option<T> {
      if Some? then this else other
    }
  }

  datatype Result<+T, +E> = Ok(value: T) | Err(error: E)

  /** The elements satisfying `keep`, in their original order. */
  function Retain<T>(s: seq<T>, keep: T -> bool): (r: seq<T>)
    ensures |r| <= |s|
  {
    if s == [] then []
    else if keep(s[0]) then [s[0]] + Retain(s[1..], keep)
    else Retain(s[1..], keep)
  }

  lemma {:induction false} RetainMembers<T(!new)>(s: seq<T>, keep: T -> bool)
    ensures forall x :: x in Retain(s, keep) <==> x in s && keep(x)
  {
    if s != [] {
      RetainMembers(s[1..], keep);
    }
  }

  lemma {:induction false} RetainConcat<T>(a: seq<T>, b: seq<T>, keep: T -> bool)
    ensures Retain(a + b, keep) == Retain(a, keep) + Retain(b, keep)
  {
    if a == [] {
      assert a + b == b;
    } else {
      assert (a + b)[0] == a[0] && (a + b)[1..] == a[1..] + b;
      RetainConcat(a[1..], b, keep);
    }
  }

  /** A filter that accepts everything changes nothing. */
  lemma {:induction false} RetainAll<T(!new)>(s: seq<T>, keep: T -> bool)
    requires forall x :: x in s ==> keep(x)
    ensures Retain(s, keep) == s
  {
    if s != [] {
      RetainAll(s[1..], keep);
    }
  }

  /** A filter that accepts nothing leaves nothing. */
  lemma {:induction false} RetainNone<T>(s: seq<T>, keep: T -> bool)
    requires forall x :: x in s ==> !keep(x)
    ensures Retain(s, keep) == []
  {
    if s != [] {
      RetainNone(s[1..], keep);
    }
  }

  /** Filters commute. */
  lemma {:induction false} RetainCommutes<T>(s: seq<T>, f: T -> bool, g: T -> bool)
    ensures Retain(Retain(s, f), g) == Retain(Retain(s, g), f)
  {
    if s != [] {
      RetainCommutes(s[1..], f, g);
    }
  }

  /** Filtering out exactly one position. */
  lemma {:induction false} RetainCutsOne<T(!new)>(before: seq<T>, x: T, after: seq<T>, keep: T -> bool)
    requires !keep(x)
    requires forall y :: y in before + after ==> keep(y)
    ensures Retain(before + [x] + after, keep) == before + after
  {
    RetainConcat(before + [x], after, keep);
    RetainConcat(before, [x], keep);
    RetainAll(before, keep);
    RetainAll(after, keep);
  }

  lemma {:induction false} TwoPositionsCountTwo<T>(s: seq<T>, i: nat, j: nat)
    requires i < j < |s| && s[i] == s[j]
    ensures multiset(s)[s[i]] >= 2
  {
    assert s == s[..j] + ([s[j]] + s[j + 1..]);
    assert s[..j][i] in multiset(s[..j]);
  }

  lemma {:induction false} CountTwoHasTwoPositions<T>(s: seq<T>, x: T) returns (i: nat, j: nat)
    requires multiset(s)[x] >= 2
    ensures i < j < |s| && s[i] == s[j] == x
  {
    var last := |s| - 1;
    var init := s[..last];
    assert s == init + [s[last]];
    if s[last] == x {
      assert x in multiset(init);
      j := last;
      i :| 0 <= i < last && init[i] == x;
    } else {
      i, j := CountTwoHasTwoPositions(init, x);
    }
  }

  /** Two positions of `b` come from two positions of any permutation of `b`. */
  lemma {:induction false} DistinctPositions<T>(a: seq<T>, b: seq<T>, i: nat, j: nat) returns (k: nat, m: nat)
    requires multiset(a) == multiset(b) && i < j < |b|
    ensures k < |a| && m < |a| && k != m && a[k] == b[i] && a[m] == b[j]
  {
    if b[i] == b[j] {
      TwoPositionsCountTwo(b, i, j);
      k, m := CountTwoHasTwoPositions(a, b[i]);
    } else {
      assert b[i] in multiset(a) && b[j] in multiset(a);
      k :| 0 <= k < |a| && a[k] == b[i];
      m :| 0 <= m < |a| && a[m] == b[j];
    }
  }

  /** Cutting one position out and updating another commute. */
  lemma {:induction false} CutUpdate<T>(s: seq<T>, i: nat, k: nat, x: T)
    requires i < |s| && k < |s| && k != i
    ensures (s[..i] + s[i + 1..])[if k < i then k else k - 1 := x] == s[k := x][..i] + s[k := x][i + 1..]
  {
  }

  /** The elements are pairwise distinct under a key. */
  ghost predicate DistinctBy<T, K>(s: seq<T>, key: T -> K) {
    forall i, j :: 0 <= i < j < |s| ==> key(s[i]) != key(s[j])
  }

  /** Filtering keeps the elements pairwise distinct under any key. */
  lemma {:induction false} RetainDistinct<T(!new), K>(s: seq<T>, keep: T -> bool, key: T -> K)
    requires DistinctBy(s, key)
    ensures DistinctBy(Retain(s, keep), key)
  {
    if s != [] {
      RetainDistinct(s[1..], keep, key);
      RetainMembers(s[1..], keep);
      assert forall x :: x in s[1..] ==> key(x) != key(s[0]);
    }
  }

  // ---------------------------------------------------------------- collections up to order

  /** The elements of `s` under their keys; of equal keys the last one wins. */
  function IndexBy<K, V>(s: seq<V>, key: V -> K): map<K, V> {
    if s == [] then map[] else IndexBy(s[..|s| - 1], key)[key(s[|s| - 1]) := s[|s| - 1]]
  }

  lemma {:induction false} IndexByKeys<K(!new), V>(s: seq<V>, key: V -> K)
    ensures forall k :: k in IndexBy(s, key) <==> exists i :: 0 <= i < |s| && key(s[i]) == k
  {
    if s != [] {
      var init := s[..|s| - 1];
      IndexByKeys(init, key);
      assert forall i :: 0 <= i < |init| ==> init[i] == s[i];
    }
  }

  lemma {:induction false} IndexByAt<K, V>(s: seq<V>, key: V -> K, i: nat)
    requires DistinctBy(s, key) && i < |s|
    ensures key(s[i]) in IndexBy(s, key) && IndexBy(s, key)[key(s[i])] == s[i]
    decreases |s|
  {
    var init := s[..|s| - 1];
    if i < |s| - 1 {
      IndexByAt(init, key, i);
      assert init[i] == s[i];
    }
  }

  /** An index is determined by its entries. */
  lemma {:induction false} IndexByIs<K(!new), V>(s: seq<V>, key: V -> K, m: map<K, V>)
    requires DistinctBy(s, key)
    requires forall i :: 0 <= i < |s| ==> key(s[i]) in m && m[key(s[i])] == s[i]
    requires forall k :: k in m ==> exists i :: 0 <= i < |s| && key(s[i]) == k
    ensures IndexBy(s, key) == m
  {
    IndexByKeys(s, key);
    var r := IndexBy(s, key);
    forall k | k in r ensures k in m && r[k] == m[k] {
      var i :| 0 <= i < |s| && key(s[i]) == k;
      IndexByAt(s, key, i);
    }
    assert r.Keys == m.Keys;
  }

  lemma {:induction false} IndexByUpdated<K(!new), V>(s: seq<V>, key: V -> K, i: nat, x: V)
    requires DistinctBy(s, key) && i < |s| && key(x) == key(s[i])
    ensures IndexBy(s[i := x], key) == IndexBy(s, key)[key(x) := x]
  {
    IndexByKeys(s, key);
    forall j | 0 <= j < |s| ensures key(s[j]) in IndexBy(s, key) && IndexBy(s, key)[key(s[j])] == s[j] {
      IndexByAt(s, key, j);
    }
    var s' := s[i := x];
    var m := IndexBy(s, key)[key(x) := x];
    forall k | k in m ensures exists j :: 0 <= j < |s'| && key(s'[j]) == k {
      var j :| 0 <= j < |s| && key(s[j]) == k;
      assert key(s'[j]) == k;
    }
    IndexByIs(s', key, m);
  }

  lemma {:induction false} IndexByRetained<K(!new), V(!new)>(s: seq<V>, key: V -> K, k: K, keep: V -> bool)
    requires DistinctBy(s, key) && forall x :: keep(x) <==> key(x) != k
    ensures IndexBy(Retain(s, keep), key) == IndexBy(s, key) - {k}
  {
    var kept := Retain(s, keep);
    RetainMembers(s, keep);
    RetainDistinct(s, keep, key);
    IndexByKeys(s, key);
    var m := IndexBy(s, key) - {k};
    forall i | 0 <= i < |kept| ensures key(kept[i]) in m && m[key(kept[i])] == kept[i] {
      assert kept[i] in kept;
      var j :| 0 <= j < |s| && s[j] == kept[i];
      IndexByAt(s, key, j);
    }
    forall k' | k' in m ensures exists i :: 0 <= i < |kept| && key(kept[i]) == k' {
      var j :| 0 <= j < |s| && key(s[j]) == k';
      assert s[j] in kept;
    }
    IndexByIs(kept, key, m);
  }

  lemma {:induction false} UpdateMinus<K, V>(m: map<K, V>, k: K, k': K, v: V)
    requires k != k'
    ensures (m - {k})[k' := v] == m[k' := v] - {k}
  {
  }

  lemma {:induction false} MinusCommutes<K, V>(m: map<K, V>, k: K, k': K)
    ensures (m - {k}) - {k'} == (m - {k'}) - {k}
  {
  }

  lemma {:induction false} UpdatesCommute<K, V>(m: map<K, V>, k: K, v: V, k': K, v': V)
    requires k != k'
    ensures m[k := v][k' := v'] == m[k' := v'][k := v]
  {
  }

  /** The part of a multiset that satisfies `keep`. */
  ghost function FilterBag<T(!new)>(m: multiset<T>, keep: T -> bool): (r: multiset<T>)
    ensures forall x :: r[x] == if keep(x) then m[x] else 0
  {
    if m == multiset{} then multiset{}
    else
      var x :| x in m;
      var rest := FilterBag(m[x := 0], keep);
      if keep(x) then rest[x := m[x]] else rest
  }

  lemma {:induction false} FilterBagAdd<T(!new)>(m: multiset<T>, x: T, keep: T -> bool)
    ensures FilterBag(multiset{x} + m, keep) == (if keep(x) then multiset{x} else multiset{}) + FilterBag(m, keep)
  {
  }

  lemma {:induction false} FilterBagsCommute<T(!new)>(m: multiset<T>, f: T -> bool, g: T -> bool)
    ensures FilterBag(FilterBag(m, f), g) == FilterBag(FilterBag(m, g), f)
  {
  }

  lemma {:induction false} RetainAsBag<T(!new)>(s: seq<T>, keep: T -> bool)
    ensures multiset(Retain(s, keep)) == FilterBag(multiset(s), keep)
  {
    if s != [] {
      RetainAsBag(s[1..], keep);
      assert s == [s[0]] + s[1..];
      assert multiset(s) == multiset{s[0]} + multiset(s[1..]);
      FilterBagAdd(multiset(s[1..]), s[0], keep);
    }
  }

  lemma {:induction false} OneMore<T>(a: set<T>, b: set<T>, x: T)
    ensures |(a + {x}) - b| == |a - b| + if x in a || x in b then 0 else 1
  {
    if x in a || x in b {
      assert (a + {x}) - b == a - b;
    } else {
      assert (a + {x}) - b == (a - b) + {x};
    }
  }

  /** Dropping, adding and replacing the differing entries turns one map into another. */
  lemma {:induction false} PatchMap<K, V>(a: map<K, V>, b: map<K, V>)
    ensures (a - (a - b.Keys).Keys) + (b - a.Keys) + (map x | x in a.Keys * b.Keys && a[x] != b[x] :: b[x]) == b
  {
    var kept, added := a - (a - b.Keys).Keys, b - a.Keys;
    var changed := map x | x in a.Keys * b.Keys && a[x] != b[x] :: b[x];
    var patched := kept + added + changed;
    assert patched.Keys == b.Keys;
    assert forall x :: x in b ==> patched[x] == b[x];
  }

  lemma {:induction false} PrefixMembers<T>(a: seq<T>, b: seq<T>)
    requires a <= b
    ensures forall x :: x in a ==> x in b
  {
    forall x | x in a ensures x in b {
      var i :| 0 <= i < |a| && a[i] == x;
      assert b[i] == x;
    }
  }

  // ---------------------------------------------------------------- first positions

  function FirstIndex<T(==)>(s: seq<T>, x: T): (r: Option<nat>)
    ensures r.Some? ==> r.value < |s| && s[r.value] == x && x !in s[..r.value]
    ensures r.None? ==> x !in s
  {
    if s == [] then None
    else if s[0] == x then Some(0)
    else match FirstIndex(s[1..], x) case Some(i) => Some(i + 1) case None => None
  }

  lemma {:induction false} FirstIndexUnique<T>(s: seq<T>, x: T, r: Option<nat>)
    requires r.Some? ==> r.value < |s| && s[r.value] == x && forall j :: 0 <= j < r.value ==> s[j] != x
    requires r.None? ==> forall j :: 0 <= j < |s| ==> s[j] != x
    ensures FirstIndex(s, x) == r
  {
    if s != [] && s[0] != x {
      FirstIndexUnique(s[1..], x, if r.Some? then Some(r.value - 1) else None);
    }
  }

  /** Where a position moves when position `i` is cut out. */
  function Shift(k: Option<nat>, i: nat): (r: Option<nat>)
    requires k != Some(i)
  {
    if k.Some? && k.value > i then Some(k.value - 1) else k
  }

  lemma {:induction false} FirstIndexCut<T>(s: seq<T>, i: nat, x: T)
    requires i < |s| && s[i] != x
    ensures FirstIndex(s, x) != Some(i)
    ensures FirstIndex(s[..i] + s[i + 1..], x) == Shift(FirstIndex(s, x), i)
  {
    var cut := s[..i] + s[i + 1..];
    if i == 0 {
      assert cut == s[1..];
    } else {
      assert cut[1..] == s[1..][..i - 1] + s[1..][i..];
      FirstIndexCut(s[1..], i - 1, x);
    }
  }

  // ---------------------------------------------------------------- runs of a step function

  /** Feed the inputs to a step one after the other; a step that fails ends the run. */
  function RunAll<S, I>(step: (S, I) -> Option<S>, s: S, inputs: seq<I>): Option<S> {
    if inputs == [] then Some(s)
    else
      match RunAll(step, s, inputs[..|inputs| - 1])
      case Some(mid) => step(mid, inputs[|inputs| - 1])
      case None => None
  }

  lemma {:induction false} RunAllConcat<S, I>(step: (S, I) -> Option<S>, s: S, a: seq<I>, b: seq<I>)
    ensures RunAll(step, s, a + b) ==
            match RunAll(step, s, a) case Some(mid) => RunAll(step, mid, b) case None => None
    decreases |b|
  {
    if b == [] {
      assert a + b == a;
    } else {
      var k := |b| - 1;
      RunAllConcat(step, s, a, b[..k]);
      assert (a + b)[..|a| + k] == a + b[..k];
    }
  }

  /** A failed run stays failed. */
  lemma {:induction false} RunAllFails<S, I>(step: (S, I) -> Option<S>, s: S, inputs: seq<I>, i: nat)
    requires i <= |inputs| && RunAll(step, s, inputs[..i]) == None
    ensures RunAll(step, s, inputs) == None
  {
    RunAllConcat(step, s, inputs[..i], inputs[i..]);
    assert inputs[..i] + inputs[i..] == inputs;
  }

  lemma {:induction false} RunAllOne<S, I>(step: (S, I) -> Option<S>, s: S, x: I)
    ensures RunAll(step, s, [x]) == step(s, x)
  {
    assert [x][..0] == [];
  }
}
