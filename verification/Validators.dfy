/** The metadata validators of the compiler: issues from every entry and from repeated keys, sorted, and
    in two of them deduplicated. Their reports do not depend on the order of the entries. */
module Validators {
  import opened Base
  import opened Order

  /** A finding; `detail` is the variable part of its message. */
  datatype Issue = Issue(code: string, id: string, field: string, detail: string)

  // ---------------------------------------------------------------- the order of issues

  /** Code, then id, then field, then message: the key holds everything an issue has. */
  predicate IssueLe(a: Issue, b: Issue) {
    if a.code != b.code then StrLe(a.code, b.code)
    else if a.id != b.id then StrLe(a.id, b.id)
    else if a.field != b.field then StrLe(a.field, b.field)
    else StrLe(a.detail, b.detail)
  }

  lemma {:induction false} IssueLeTotal(a: Issue, b: Issue)
    ensures IssueLe(a, b) || IssueLe(b, a)
  {
    StrLeTotal(a.code, b.code);
    StrLeTotal(a.id, b.id);
    StrLeTotal(a.field, b.field);
    StrLeTotal(a.detail, b.detail);
  }

  lemma {:induction false} IssueLeAntisym(a: Issue, b: Issue)
    requires IssueLe(a, b) && IssueLe(b, a)
    ensures a == b
  {
    if a.code != b.code {
      StrLeAntisym(a.code, b.code);
    } else if a.id != b.id {
      StrLeAntisym(a.id, b.id);
    } else if a.field != b.field {
      StrLeAntisym(a.field, b.field);
    } else {
      StrLeAntisym(a.detail, b.detail);
    }
  }

  /** Lexicographic steps: either the middle text is one of the ends, or the order passes through it. */
  lemma {:induction false} StrThrough(x: string, y: string, z: string)
    requires StrLe(x, y) && StrLe(y, z)
    ensures StrLe(x, z) && (x == z ==> x == y)
  {
    StrLeTrans(x, y, z);
    if x == z {
      StrLeAntisym(x, y);
    }
  }

  lemma {:induction false} IssueLeTrans(a: Issue, b: Issue, c: Issue)
    requires IssueLe(a, b) && IssueLe(b, c)
    ensures IssueLe(a, c)
  {
    StrLeRefl(a.code);
    StrLeRefl(b.code);
    StrThrough(a.code, b.code, c.code);
    if a.code == c.code {
      StrLeRefl(a.id);
      StrLeRefl(b.id);
      StrThrough(a.id, b.id, c.id);
      if a.id == c.id {
        StrLeRefl(a.field);
        StrLeRefl(b.field);
        StrThrough(a.field, b.field, c.field);
        if a.field == c.field {
          StrLeTrans(a.detail, b.detail, c.detail);
        }
      }
    }
  }

  lemma {:induction false} IssueLeOrders()
    ensures TotalPreorder(IssueLe) && Antisymmetric(IssueLe)
  {
    forall a: Issue, b: Issue ensures IssueLe(a, b) || IssueLe(b, a) {
      IssueLeTotal(a, b);
    }
    forall a: Issue, b: Issue, c: Issue | IssueLe(a, b) && IssueLe(b, c) ensures IssueLe(a, c) {
      IssueLeTrans(a, b, c);
    }
    forall a: Issue, b: Issue | IssueLe(a, b) && IssueLe(b, a) ensures a == b {
      IssueLeAntisym(a, b);
    }
  }

  // ---------------------------------------------------------------- what a validator looks for

  /** The rules of one validator: what one entry violates, the key that must not repeat, and the issue
      for a key with its number of occurrences. */
  datatype Rules<!E, !K(==)> = Rules(check: E -> seq<Issue>, key: E -> K, repeated: (K, nat) -> Issue)

  /** The sum of a bag per element. */
  ghost function SumBag<E, X>(s: seq<E>, bag: E -> multiset<X>): multiset<X> {
    if s == [] then multiset{} else SumBag(s[..|s| - 1], bag) + bag(s[|s| - 1])
  }

  lemma {:induction false} SumBagSplit<E, X>(a: seq<E>, e: E, b: seq<E>, bag: E -> multiset<X>)
    ensures SumBag(a + [e] + b, bag) == SumBag(a + b, bag) + bag(e)
    decreases |b|
  {
    if b == [] {
      assert a + [e] + b == a + [e] && (a + [e])[..|a|] == a && a + b == a;
    } else {
      var k := |b| - 1;
      SumBagSplit(a, e, b[..k], bag);
      assert (a + [e] + b)[..|a| + 1 + k] == a + [e] + b[..k];
      assert (a + b)[..|a| + k] == a + b[..k];
    }
  }

  /** A sum of bags does not depend on the order of its terms. */
  lemma {:induction false} SumBagPermutes<E, X>(a: seq<E>, b: seq<E>, bag: E -> multiset<X>)
    requires multiset(a) == multiset(b)
    ensures SumBag(a, bag) == SumBag(b, bag)
    decreases |a|
  {
    if a == [] {
      assert |multiset(b)| == 0;
    } else {
      var k := |a| - 1;
      assert a == a[..k] + [a[k]];
      assert a[k] in multiset(b);
      var j :| 0 <= j < |b| && b[j] == a[k];
      assert b == b[..j] + [b[j]] + b[j + 1..];
      CutsPermute(a[..k], a[k], b[..j], b[j + 1..]);
      SumBagPermutes(a[..k], b[..j] + b[j + 1..], bag);
      SumBagSplit(b[..j], b[j], b[j + 1..], bag);
    }
  }

  lemma {:induction false} CutsPermute<E>(init: seq<E>, e: E, left: seq<E>, right: seq<E>)
    requires multiset(init + [e]) == multiset(left + [e] + right)
    ensures multiset(init) == multiset(left + right)
  {
    assert multiset(init + [e]) == multiset(init) + multiset{e};
    assert multiset(left + [e] + right) == multiset(left + right) + multiset{e};
    assert multiset(init) == multiset(init) + multiset{e} - multiset{e};
  }

  ghost function KeyOf<E, K>(rules: Rules<E, K>): E -> multiset<K> {
    e => multiset{rules.key(e)}
  }

  ghost function IssuesOf<E, K>(rules: Rules<E, K>): E -> multiset<Issue> {
    e => multiset(rules.check(e))
  }

  /** How often each key occurs. */
  ghost function KeyBag<E, K>(entries: seq<E>, rules: Rules<E, K>): multiset<K> {
    SumBag(entries, KeyOf(rules))
  }

  /** An issue of the entries: of one of them, or of a repeated key. */
  ghost predicate Found<E(!new), K(!new)>(entries: seq<E>, rules: Rules<E, K>, x: Issue) {
    || x in SumBag(entries, IssuesOf(rules))
    || exists k :: Repeats(entries, rules, k) && x == rules.repeated(k, KeyBag(entries, rules)[k])
  }

  ghost predicate Repeats<E, K>(entries: seq<E>, rules: Rules<E, K>, k: K) {
    KeyBag(entries, rules)[k] > 1
  }

  ghost predicate StrictlySorted(s: seq<Issue>) {
    forall i, j :: 0 <= i < j < |s| ==> IssueLe(s[i], s[j]) && s[i] != s[j]
  }

  /** The deduplicated report: exactly the issues, each once, in order. */
  ghost predicate IsReport<E(!new), K(!new)>(entries: seq<E>, rules: Rules<E, K>, report: seq<Issue>) {
    StrictlySorted(report) && forall x :: x in report <==> Found(entries, rules, x)
  }

  // ---------------------------------------------------------------- collecting

  /** The counter map holds exactly the numbers of occurrences. */
  ghost predicate Counts<K>(counts: map<K, nat>, bag: multiset<K>) {
    && (forall k :: k in bag ==> k in counts)
    && (forall k :: k in counts ==> counts[k] == bag[k])
  }

  lemma {:induction false} CountOne<K>(counts: map<K, nat>, bag: multiset<K>, k: K)
    requires Counts(counts, bag)
    ensures Counts(counts[k := (if k in counts then counts[k] else 0) + 1], bag + multiset{k})
  {
  }

  lemma {:induction false} SumBagNext<E, X>(s: seq<E>, i: nat, bag: E -> multiset<X>)
    requires i < |s|
    ensures SumBag(s[..i + 1], bag) == SumBag(s[..i], bag) + bag(s[i])
  {
    assert s[..i + 1][..i] == s[..i];
  }

  method CollectIssues<E, K>(entries: seq<E>, rules: Rules<E, K>) returns (issues: seq<Issue>, counts: map<K, nat>)
    ensures multiset(issues) == SumBag(entries, IssuesOf(rules))
    ensures Counts(counts, KeyBag(entries, rules))
  {
    issues, counts := [], map[];
    for i := 0 to |entries|
      invariant multiset(issues) == SumBag(entries[..i], IssuesOf(rules))
      invariant Counts(counts, KeyBag(entries[..i], rules))
    {
      var k := rules.key(entries[i]);
      CountOne(counts, KeyBag(entries[..i], rules), k);
      SumBagNext(entries, i, KeyOf(rules));
      SumBagNext(entries, i, IssuesOf(rules));
      counts := counts[k := (if k in counts then counts[k] else 0) + 1];
      issues := issues + rules.check(entries[i]);
    }
    assert entries[..|entries|] == entries;
  }

  /** The repeated keys of `keys` whose issue is `x`. */
  ghost function ReportedAs<K>(keys: set<K>, counts: map<K, nat>, repeated: (K, nat) -> Issue, x: Issue): set<K>
    requires keys <= counts.Keys
  {
    set k | k in keys && counts[k] > 1 && repeated(k, counts[k]) == x
  }

  lemma {:induction false} ReportOne<K>(keys: set<K>, k: K, counts: map<K, nat>, repeated: (K, nat) -> Issue, x: Issue)
    requires keys <= counts.Keys && k in counts && k !in keys
    ensures |ReportedAs(keys + {k}, counts, repeated, x)|
            == |ReportedAs(keys, counts, repeated, x)| + if counts[k] > 1 && repeated(k, counts[k]) == x then 1 else 0
  {
    var before, after := ReportedAs(keys, counts, repeated, x), ReportedAs(keys + {k}, counts, repeated, x);
    if counts[k] > 1 && repeated(k, counts[k]) == x {
      assert after == before + {k};
    } else {
      assert after == before;
    }
  }

  /** One issue per repeated key, whatever the order the keys are visited in. */
  method AddRepeated<K>(found: seq<Issue>, counts: map<K, nat>, repeated: (K, nat) -> Issue)
    returns (issues: seq<Issue>)
    ensures forall x :: multiset(issues)[x] == multiset(found)[x] + |ReportedAs(counts.Keys, counts, repeated, x)|
  {
    issues := found;
    var todo := counts.Keys;
    while todo != {}
      invariant todo <= counts.Keys
      invariant forall x :: multiset(issues)[x]
                            == multiset(found)[x] + |ReportedAs(counts.Keys - todo, counts, repeated, x)|
    {
      var k :| k in todo;
      ghost var done := counts.Keys - todo;
      forall x ensures |ReportedAs(done + {k}, counts, repeated, x)|
                       == |ReportedAs(done, counts, repeated, x)|
                          + if counts[k] > 1 && repeated(k, counts[k]) == x then 1 else 0
      {
        ReportOne(done, k, counts, repeated, x);
      }
      if counts[k] > 1 {
        issues := issues + [repeated(k, counts[k])];
      }
      todo := todo - {k};
      assert counts.Keys - todo == done + {k};
    }
    assert counts.Keys - todo == counts.Keys;
  }

  /** `Vec::dedup`: of equal neighbours only the first stays. */
  method Dedup(s: seq<Issue>) returns (r: seq<Issue>)
    requires SortedBy(s, IssueLe) && Antisymmetric(IssueLe)
    ensures StrictlySorted(r) && forall x :: x in r <==> x in s
  {
    r := [];
    for i := 0 to |s|
      invariant StrictlySorted(r)
      invariant r == [] <==> i == 0
      invariant i > 0 ==> r[|r| - 1] == s[i - 1]
      invariant forall x :: x in r <==> x in s[..i]
    {
      if r == [] || r[|r| - 1] != s[i] {
        forall j | 0 <= j < |r| ensures IssueLe(r[j], s[i]) && r[j] != s[i] {
          assert r[j] in s[..i];
          var m :| 0 <= m < i && s[m] == r[j];
        }
        r := r + [s[i]];
      }
    }
    assert s[..|s|] == s;
  }

  // ---------------------------------------------------------------- the validators

  /** The repeated keys of the entries whose issue is `x`. */
  ghost function RepeatedAs<E, K>(entries: seq<E>, rules: Rules<E, K>, x: Issue): set<K> {
    set k | k in KeyBag(entries, rules) && Repeats(entries, rules, k)
      && rules.repeated(k, KeyBag(entries, rules)[k]) == x
  }

  /** The plain report: every issue as often as it is raised, in order. */
  ghost predicate IsFullReport<E, K>(entries: seq<E>, rules: Rules<E, K>, report: seq<Issue>) {
    && SortedBy(report, IssueLe)
    && forall x :: multiset(report)[x] == SumBag(entries, IssuesOf(rules))[x] + |RepeatedAs(entries, rules, x)|
  }

  lemma {:induction false} ReportedIsRepeated<E, K>(entries: seq<E>, rules: Rules<E, K>, counts: map<K, nat>, x: Issue)
    requires Counts(counts, KeyBag(entries, rules))
    ensures ReportedAs(counts.Keys, counts, rules.repeated, x) == RepeatedAs(entries, rules, x)
  {
  }

  /** Collect and sort. */
  method ValidateSorted<E, K>(entries: seq<E>, rules: Rules<E, K>) returns (report: seq<Issue>)
    ensures IsFullReport(entries, rules, report)
  {
    var found, counts := CollectIssues(entries, rules);
    var issues := AddRepeated(found, counts, rules.repeated);
    IssueLeOrders();
    SortSorted(issues, IssueLe);
    report := Sort(issues, IssueLe);
    forall x ensures multiset(report)[x] == SumBag(entries, IssuesOf(rules))[x] + |RepeatedAs(entries, rules, x)| {
      ReportedIsRepeated(entries, rules, counts, x);
    }
  }

  /** Collect, sort and deduplicate. */
  method ValidateDeduped<E(!new), K(!new)>(entries: seq<E>, rules: Rules<E, K>) returns (report: seq<Issue>)
    ensures IsReport(entries, rules, report)
  {
    var full := ValidateSorted(entries, rules);
    IssueLeOrders();
    report := Dedup(full);
    forall x ensures x in report <==> Found(entries, rules, x) {
      FullReportMembers(entries, rules, full, x);
    }
  }

  lemma {:induction false} FullReportMembers<E(!new), K(!new)>(entries: seq<E>, rules: Rules<E, K>,
                                                               report: seq<Issue>, x: Issue)
    requires IsFullReport(entries, rules, report)
    ensures x in report <==> Found(entries, rules, x)
  {
    assert x in report <==> multiset(report)[x] > 0;
    var keys := RepeatedAs(entries, rules, x);
    if k :| Repeats(entries, rules, k) && x == rules.repeated(k, KeyBag(entries, rules)[k]) {
      assert k in KeyBag(entries, rules);
      assert k in keys;
    } else {
      assert keys == {};
    }
  }

  /** The issues of a list of entries do not depend on its order. */
  lemma {:induction false} FoundPermutes<E(!new), K(!new)>(a: seq<E>, b: seq<E>, rules: Rules<E, K>, x: Issue)
    requires multiset(a) == multiset(b)
    ensures Found(a, rules, x) <==> Found(b, rules, x)
  {
    SumBagPermutes(a, b, IssuesOf(rules));
    SumBagPermutes(a, b, KeyOf(rules));
    assert forall k :: Repeats(a, rules, k) == Repeats(b, rules, k);
  }

  lemma {:induction false} StrictTail(s: seq<Issue>)
    requires StrictlySorted(s) && s != []
    ensures StrictlySorted(s[1..]) && s[0] !in s[1..]
  {
  }

  lemma {:induction false} HasMember<T>(s: seq<T>)
    ensures s == [] || exists x :: x in s
  {
    if s != [] {
      assert s[0] in s;
    }
  }

  /** A strictly sorted list is determined by its members. */
  lemma {:induction false} StrictlySortedUnique(a: seq<Issue>, b: seq<Issue>)
    requires StrictlySorted(a) && StrictlySorted(b) && Antisymmetric(IssueLe)
    requires forall x :: x in a <==> x in b
    ensures a == b
    decreases |a|
  {
    HasMember(b);
    if a != [] {
      assert a[0] in b && b[0] in a;
      assert a[0] == b[0];
      StrictTail(a);
      StrictTail(b);
      assert a == [a[0]] + a[1..] && b == [b[0]] + b[1..];
      forall x ensures x in a[1..] <==> x in b[1..] {
        assert x in a <==> x in b;
      }
      StrictlySortedUnique(a[1..], b[1..]);
    }
  }

  /** A deduplicated report is the same for every order of the entries. */
  lemma {:induction false} ReportIgnoresOrder<E(!new), K(!new)>(a: seq<E>, b: seq<E>, rules: Rules<E, K>,
                                                                ra: seq<Issue>, rb: seq<Issue>)
    requires multiset(a) == multiset(b) && IsReport(a, rules, ra) && IsReport(b, rules, rb)
    ensures ra == rb
  {
    forall x ensures x in ra <==> x in rb {
      FoundPermutes(a, b, rules, x);
    }
    IssueLeOrders();
    StrictlySortedUnique(ra, rb);
  }

  /** So is the plain one, down to how often an issue is listed. */
  lemma {:induction false} FullReportIgnoresOrder<E, K>(a: seq<E>, b: seq<E>, rules: Rules<E, K>, ra: seq<Issue>,
                                                        rb: seq<Issue>)
    requires multiset(a) == multiset(b) && IsFullReport(a, rules, ra) && IsFullReport(b, rules, rb)
    ensures ra == rb
  {
    SumBagPermutes(a, b, IssuesOf(rules));
    SumBagPermutes(a, b, KeyOf(rules));
    forall x ensures multiset(ra)[x] == multiset(rb)[x] {
      assert RepeatedAs(a, rules, x) == RepeatedAs(b, rules, x);
    }
    assert multiset(ra) == multiset(rb);
    IssueLeOrders();
    SortedUnique(ra, rb, IssueLe);
  }

  // ---------------------------------------------------------------- when a report is empty

  function KeySeq<E, K>(entries: seq<E>, rules: Rules<E, K>): (ks: seq<K>)
    ensures |ks| == |entries| && forall i :: 0 <= i < |ks| ==> ks[i] == rules.key(entries[i])
  {
    seq(|entries|, i requires 0 <= i < |entries| => rules.key(entries[i]))
  }

  lemma {:induction false} KeyBagIsKeys<E, K>(entries: seq<E>, rules: Rules<E, K>)
    ensures KeyBag(entries, rules) == multiset(KeySeq(entries, rules))
  {
    if entries != [] {
      var k := |entries| - 1;
      KeyBagIsKeys(entries[..k], rules);
      assert KeySeq(entries, rules) == KeySeq(entries[..k], rules) + [rules.key(entries[k])];
    }
  }

  /** No key repeats exactly when the entries have pairwise different keys. */
  lemma {:induction false} NoRepeatsIffDistinct<E(!new), K(!new)>(entries: seq<E>, rules: Rules<E, K>)
    ensures (forall k :: !Repeats(entries, rules, k)) <==> DistinctBy(entries, rules.key)
  {
    KeyBagIsKeys(entries, rules);
    var ks := KeySeq(entries, rules);
    if k :| Repeats(entries, rules, k) {
      var i, j := CountTwoHasTwoPositions(ks, k);
      assert rules.key(entries[i]) == rules.key(entries[j]);
    }
    if i, j :| 0 <= i < j < |entries| && rules.key(entries[i]) == rules.key(entries[j]) {
      TwoPositionsCountTwo(ks, i, j);
      assert Repeats(entries, rules, ks[i]);
    }
  }

  lemma {:induction false} SumBagMembers<E(!new), X>(s: seq<E>, bag: E -> multiset<X>, x: X)
    ensures x in SumBag(s, bag) <==> exists e :: e in s && x in bag(e)
  {
    if s != [] {
      SumBagMembers(s[..|s| - 1], bag, x);
      assert s == s[..|s| - 1] + [s[|s| - 1]];
    }
  }

  /** Nothing is found exactly when every entry passes its checks and no key repeats. */
  ghost predicate Clean<E(!new), K(!new)>(entries: seq<E>, rules: Rules<E, K>) {
    (forall e :: e in entries ==> rules.check(e) == []) && DistinctBy(entries, rules.key)
  }

  lemma {:induction false} NothingFoundIffClean<E(!new), K(!new)>(entries: seq<E>, rules: Rules<E, K>)
    ensures (forall x :: !Found(entries, rules, x)) <==> Clean(entries, rules)
  {
    NoRepeatsIffDistinct(entries, rules);
    if e :| e in entries && rules.check(e) != [] {
      var x := rules.check(e)[0];
      SumBagMembers(entries, IssuesOf(rules), x);
      assert Found(entries, rules, x);
    } else if k :| Repeats(entries, rules, k) {
      assert Found(entries, rules, rules.repeated(k, KeyBag(entries, rules)[k]));
    } else {
      forall x ensures !Found(entries, rules, x) {
        SumBagMembers(entries, IssuesOf(rules), x);
      }
    }
  }

  lemma {:induction false} EmptyFullReport<E(!new), K(!new)>(entries: seq<E>, rules: Rules<E, K>, report: seq<Issue>)
    requires IsFullReport(entries, rules, report)
    ensures report == [] <==> Clean(entries, rules)
  {
    NothingFoundIffClean(entries, rules);
    forall x ensures x in report <==> Found(entries, rules, x) {
      FullReportMembers(entries, rules, report, x);
    }
    if report != [] {
      assert report[0] in report;
    }
  }

  lemma {:induction false} EmptyReport<E(!new), K(!new)>(entries: seq<E>, rules: Rules<E, K>, report: seq<Issue>)
    requires IsReport(entries, rules, report)
    ensures report == [] <==> Clean(entries, rules)
  {
    NothingFoundIffClean(entries, rules);
    if report != [] {
      assert report[0] in report;
    }
  }
}
