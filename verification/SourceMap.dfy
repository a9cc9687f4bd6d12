/** Quality validation of a semantic source map: the sweep over sorted generated spans against pairwise
    disjointness. */
module SourceMap {
  import opened Base
  import opened Order
  import opened Text

  /** A half-open byte range in a file. */
  datatype Span = Span(fileId: string, start: nat, end: nat)
  datatype Entry = Entry(node: nat, source: Option<Span>, generated: Option<Span>)

  datatype Kind = Source | Generated

  datatype Detail =
    | FileIdMissing(kind: Kind)
    | BadRange(kind: Kind, filePresent: bool, empty: bool)
    | Overlapping

  datatype Diagnostic = Diagnostic(index: nat, node: nat, detail: Detail) {
    /** The numeric part of the code: AIL-SM-001 to AIL-SM-004. */
    function Rank(): nat {
      match detail
      case BadRange(Source, _, _) => 1
      case FileIdMissing(_) => 2
      case Overlapping => 3
      case BadRange(Generated, _, _) => 4
    }
  }

  /** A generated span with the entry it belongs to. */
  datatype Gen = Gen(index: nat, node: nat, span: Span)

  predicate FilePresent(s: Span) {
    Trim(s.fileId) != []
  }

  predicate WellFormed(s: Span) {
    FilePresent(s) && s.start < s.end
  }

  // ---------------------------------------------------------------- what a clean map is

  predicate Covers(s: Span, file: string, k: nat) {
    s.fileId == file && s.start <= k < s.end
  }

  /** No byte belongs to both spans. */
  ghost predicate Disjoint(a: Span, b: Span) {
    forall file: string, k: nat :: !(Covers(a, file, k) && Covers(b, file, k))
  }

  ghost predicate SpansWellFormed(e: Entry) {
    && (e.source.Some? ==> WellFormed(e.source.value))
    && (e.generated.Some? ==> WellFormed(e.generated.value))
  }

  ghost predicate Apart(a: Entry, b: Entry) {
    a.generated.Some? && b.generated.Some? ==> Disjoint(a.generated.value, b.generated.value)
  }

  /** Every span is well formed, and no two entries generate the same byte. */
  ghost predicate Clean(entries: seq<Entry>) {
    && (forall i :: 0 <= i < |entries| ==> SpansWellFormed(entries[i]))
    && (forall i, j :: 0 <= i < j < |entries| ==> Apart(entries[i], entries[j]))
  }

  // ---------------------------------------------------------------- the validator

  function SpanIssues(index: nat, node: nat, span: Span, kind: Kind): seq<Diagnostic> {
    (if FilePresent(span) then [] else [Diagnostic(index, node, FileIdMissing(kind))])
    + (if span.start < span.end then []
       else [Diagnostic(index, node, BadRange(kind, FilePresent(span), span.start == span.end))])
  }

  function EntryIssues(index: nat, e: Entry): seq<Diagnostic> {
    (if e.source.Some? then SpanIssues(index, e.node, e.source.value, Source) else [])
    + (if e.generated.Some? then SpanIssues(index, e.node, e.generated.value, Generated) else [])
  }

  function RecordIssues(entries: seq<Entry>): seq<Diagnostic> {
    if entries == [] then []
    else
      var k := |entries| - 1;
      RecordIssues(entries[..k]) + EntryIssues(k, entries[k])
  }

  predicate IsEligible(e: Entry) {
    e.generated.Some? && WellFormed(e.generated.value)
  }

  /** The generated spans the overlap sweep looks at, in entry order. */
  function Eligible(entries: seq<Entry>): seq<Gen> {
    if entries == [] then []
    else
      var k := |entries| - 1;
      Eligible(entries[..k])
      + (if IsEligible(entries[k]) then [Gen(k, entries[k].node, entries[k].generated.value)] else [])
  }

  /** By file, start, end and entry. */
  predicate GenLe(a: Gen, b: Gen) {
    if a.span.fileId != b.span.fileId then StrLe(a.span.fileId, b.span.fileId)
    else if a.span.start != b.span.start then a.span.start < b.span.start
    else if a.span.end != b.span.end then a.span.end < b.span.end
    else a.index <= b.index
  }

  /** The sweep's test of a span against the one before it. */
  predicate RunsInto(previous: Gen, current: Gen) {
    previous.span.fileId == current.span.fileId && current.span.start < previous.span.end
  }

  function NeighbourIssue(previous: Gen, current: Gen): seq<Diagnostic> {
    if RunsInto(previous, current) then [Diagnostic(current.index, current.node, Overlapping)] else []
  }

  predicate Reported(spans: seq<Gen>, k: int) {
    1 <= k < |spans| && RunsInto(spans[k - 1], spans[k])
  }

  function NeighbourIssues(spans: seq<Gen>): seq<Diagnostic> {
    if |spans| <= 1 then []
    else
      var k := |spans| - 1;
      NeighbourIssues(spans[..k]) + NeighbourIssue(spans[k - 1], spans[k])
  }

  predicate IssueLe(a: Diagnostic, b: Diagnostic) {
    a.index < b.index || (a.index == b.index && a.Rank() <= b.Rank())
  }

  function SortedSpans(entries: seq<Entry>): seq<Gen> {
    Sort(Eligible(entries), GenLe)
  }

  function ValidationResult(entries: seq<Entry>): seq<Diagnostic> {
    Sort(RecordIssues(entries) + NeighbourIssues(SortedSpans(entries)), IssueLe)
  }

  method CollectGenerated(entries: seq<Entry>) returns (spans: seq<Gen>)
    ensures spans == Eligible(entries)
  {
    spans := [];
    for i := 0 to |entries|
      invariant spans == Eligible(entries[..i])
    {
      assert entries[..i + 1][..i] == entries[..i];
      if IsEligible(entries[i]) {
        spans := spans + [Gen(i, entries[i].node, entries[i].generated.value)];
      }
    }
    assert entries[..|entries|] == entries;
  }

  method Sweep(spans: seq<Gen>) returns (issues: seq<Diagnostic>)
    ensures issues == NeighbourIssues(spans)
  {
    issues := [];
    var previous: Option<Gen> := None;
    for k := 0 to |spans|
      invariant previous == if k == 0 then None else Some(spans[k - 1])
      invariant issues == NeighbourIssues(spans[..k])
    {
      assert spans[..k + 1][..k] == spans[..k];
      if previous.Some? {
        issues := issues + NeighbourIssue(previous.value, spans[k]);
      }
      previous := Some(spans[k]);
    }
    assert spans[..|spans|] == spans;
  }

  method AddGeneratedOverlapIssues(found: seq<Diagnostic>, entries: seq<Entry>) returns (issues: seq<Diagnostic>)
    ensures issues == found + NeighbourIssues(SortedSpans(entries))
  {
    var spans := CollectGenerated(entries);
    var overlaps := Sweep(Sort(spans, GenLe));
    issues := found + overlaps;
  }

  lemma {:induction false} RecordIssuesNext(entries: seq<Entry>, i: nat)
    requires i < |entries|
    ensures RecordIssues(entries[..i + 1]) == RecordIssues(entries[..i]) + EntryIssues(i, entries[i])
  {
    assert entries[..i + 1][..i] == entries[..i];
  }

  method CheckEntry(index: nat, e: Entry) returns (found: seq<Diagnostic>)
    ensures found == EntryIssues(index, e)
  {
    found := [];
    if e.source.Some? {
      found := found + SpanIssues(index, e.node, e.source.value, Source);
    }
    if e.generated.Some? {
      found := found + SpanIssues(index, e.node, e.generated.value, Generated);
    }
  }

  method CheckRecords(entries: seq<Entry>) returns (found: seq<Diagnostic>)
    ensures found == RecordIssues(entries)
  {
    found := [];
    for i := 0 to |entries|
      invariant found == RecordIssues(entries[..i])
    {
      var more := CheckEntry(i, entries[i]);
      RecordIssuesNext(entries, i);
      found := found + more;
    }
    assert entries[..|entries|] == entries;
  }

  /** The verdict is exact: no issue is reported exactly for a clean map. */
  method ValidationIssues(entries: seq<Entry>) returns (issues: seq<Diagnostic>)
    ensures issues == ValidationResult(entries)
    ensures SortedBy(issues, IssueLe)
    ensures issues == [] <==> Clean(entries)
  {
    var found := CheckRecords(entries);
    found := AddGeneratedOverlapIssues(found, entries);
    issues := Sort(found, IssueLe);
    IssueLeOrders();
    SortSorted(found, IssueLe);
    SilentIffClean(entries);
  }

  // ---------------------------------------------------------------- exactness

  lemma {:induction false} EntryIssuesEmpty(index: nat, e: Entry)
    ensures EntryIssues(index, e) == [] <==> SpansWellFormed(e)
  {
  }

  lemma {:induction false} ConcatEmpty<T>(a: seq<T>, b: seq<T>)
    ensures a + b == [] <==> a == [] && b == []
  {
    assert |a + b| == |a| + |b|;
  }

  lemma {:induction false} RecordIssuesEmpty(entries: seq<Entry>)
    ensures RecordIssues(entries) == [] <==> forall i :: 0 <= i < |entries| ==> SpansWellFormed(entries[i])
  {
    if entries != [] {
      var k := |entries| - 1;
      RecordIssuesEmpty(entries[..k]);
      EntryIssuesEmpty(k, entries[k]);
      ConcatEmpty(RecordIssues(entries[..k]), EntryIssues(k, entries[k]));
    }
  }

  lemma {:induction false} EligibleMembers(entries: seq<Entry>, g: Gen)
    ensures g in Eligible(entries) <==>
            g.index < |entries| && IsEligible(entries[g.index])
            && g.node == entries[g.index].node && g.span == entries[g.index].generated.value
  {
    if entries != [] {
      EligibleMembers(entries[..|entries| - 1], g);
    }
  }

  lemma {:induction false} EligibleDistinct(entries: seq<Entry>, i: nat, j: nat)
    requires i < j < |Eligible(entries)|
    ensures Eligible(entries)[i].index < Eligible(entries)[j].index < |entries|
  {
    var init := entries[..|entries| - 1];
    if j < |Eligible(init)| {
      EligibleDistinct(init, i, j);
    } else {
      EligibleMembers(init, Eligible(init)[i]);
    }
  }

  lemma {:induction false} GenLeOrders()
    ensures TotalPreorder(GenLe)
  {
    forall a: Gen, b: Gen ensures GenLe(a, b) || GenLe(b, a) {
      StrLeTotal(a.span.fileId, b.span.fileId);
    }
    forall a: Gen, b: Gen, c: Gen | GenLe(a, b) && GenLe(b, c) ensures GenLe(a, c) {
      GenLeTrans(a, b, c);
    }
  }

  lemma {:induction false} GenLeTrans(a: Gen, b: Gen, c: Gen)
    requires GenLe(a, b) && GenLe(b, c)
    ensures GenLe(a, c)
  {
    var x, y, z := a.span.fileId, b.span.fileId, c.span.fileId;
    if x != y && y != z {
      StrLeTrans(x, y, z);
      if x == z {
        StrLeAntisym(x, y);
      }
    }
  }

  lemma {:induction false} ReportedLast(spans: seq<Gen>, j: int)
    requires |spans| > 1
    ensures var k := |spans| - 1;
            Reported(spans, j) <==> Reported(spans[..k], j) || (j == k && RunsInto(spans[k - 1], spans[k]))
  {
  }

  lemma {:induction false} NeighbourIssuesEmpty(spans: seq<Gen>)
    ensures NeighbourIssues(spans) == [] <==> forall k :: !Reported(spans, k)
  {
    if |spans| > 1 {
      var k := |spans| - 1;
      var last := NeighbourIssue(spans[k - 1], spans[k]);
      NeighbourIssuesEmpty(spans[..k]);
      ConcatEmpty(NeighbourIssues(spans[..k]), last);
      if NeighbourIssues(spans) == [] {
        forall j ensures !Reported(spans, j) {
          ReportedLast(spans, j);
        }
      } else if last != [] {
        assert Reported(spans, k);
      } else {
        var j :| Reported(spans[..k], j);
        ReportedLast(spans, j);
      }
    }
  }

  /** In sorted order it is enough to look at neighbours: spans further apart are further apart. */
  lemma {:induction false} SweepSeesAll(spans: seq<Gen>, i: nat, j: nat)
    requires SortedBy(spans, GenLe) && i < j < |spans|
    requires forall k :: 0 <= k < |spans| ==> spans[k].span.start < spans[k].span.end
    requires forall k :: !Reported(spans, k)
    requires spans[i].span.fileId == spans[j].span.fileId
    ensures spans[i].span.end <= spans[j].span.start
  {
    if i + 1 < j {
      SameFileBetween(spans[i], spans[j - 1], spans[j]);
      SweepSeesAll(spans, i, j - 1);
    }
    assert !Reported(spans, j);
  }

  lemma {:induction false} SameFileBetween(a: Gen, b: Gen, c: Gen)
    requires GenLe(a, b) && GenLe(b, c) && a.span.fileId == c.span.fileId
    ensures b.span.fileId == a.span.fileId
  {
    if b.span.fileId != a.span.fileId {
      StrLeAntisym(a.span.fileId, b.span.fileId);
    }
  }

  lemma {:induction false} DisjointIffOrdered(a: Span, b: Span)
    requires a.start < a.end && b.start < b.end && a.fileId == b.fileId
    ensures Disjoint(a, b) <==> a.end <= b.start || b.end <= a.start
  {
    var k := if a.start < b.start then b.start else a.start;
    if !(a.end <= b.start || b.end <= a.start) {
      assert Covers(a, a.fileId, k) && Covers(b, a.fileId, k);
    }
  }

  /** A span that runs into its predecessor really shares a byte with it. */
  lemma {:induction false} RunsIntoOverlaps(a: Gen, b: Gen)
    requires GenLe(a, b) && RunsInto(a, b) && a.span.start < a.span.end && b.span.start < b.span.end
    ensures !Disjoint(a.span, b.span)
  {
    DisjointIffOrdered(a.span, b.span);
  }

  /** The members of the sorted spans are the eligible spans of distinct entries. */
  lemma {:induction false} SortedSpansMembers(entries: seq<Entry>, k: nat)
    requires k < |SortedSpans(entries)|
    ensures var g := SortedSpans(entries)[k];
            && g.index < |entries| && IsEligible(entries[g.index]) && g.span == entries[g.index].generated.value
            && g.node == entries[g.index].node
  {
    var g := SortedSpans(entries)[k];
    assert g in multiset(SortedSpans(entries)) && multiset(SortedSpans(entries)) == multiset(Eligible(entries));
    EligibleMembers(entries, g);
  }

  lemma {:induction false} SortedSpansDistinct(entries: seq<Entry>, i: nat, j: nat)
    requires i < j < |SortedSpans(entries)|
    ensures SortedSpans(entries)[i].index != SortedSpans(entries)[j].index
  {
    var k, m := DistinctPositions(Eligible(entries), SortedSpans(entries), i, j);
    if k < m {
      EligibleDistinct(entries, k, m);
    } else {
      EligibleDistinct(entries, m, k);
    }
  }

  lemma {:induction false} SortedSpansPosition(entries: seq<Entry>, i: nat) returns (k: nat)
    requires i < |entries| && IsEligible(entries[i])
    ensures k < |SortedSpans(entries)| && SortedSpans(entries)[k] == Gen(i, entries[i].node, entries[i].generated.value)
  {
    var g := Gen(i, entries[i].node, entries[i].generated.value);
    EligibleMembers(entries, g);
    assert g in multiset(Eligible(entries));
    assert g in multiset(SortedSpans(entries));
    k :| 0 <= k < |SortedSpans(entries)| && SortedSpans(entries)[k] == g;
  }

  /** What a sweep over sorted spans relies on. */
  ghost predicate Swept(spans: seq<Gen>) {
    && SortedBy(spans, GenLe)
    && (forall k :: 0 <= k < |spans| ==> spans[k].span.start < spans[k].span.end)
    && (forall k :: !Reported(spans, k))
  }

  lemma {:induction false} SilentSweep(entries: seq<Entry>)
    requires NeighbourIssues(SortedSpans(entries)) == []
    ensures Swept(SortedSpans(entries))
  {
    var spans := SortedSpans(entries);
    GenLeOrders();
    SortSorted(Eligible(entries), GenLe);
    NeighbourIssuesEmpty(spans);
    forall k | 0 <= k < |spans| ensures spans[k].span.start < spans[k].span.end {
      SortedSpansMembers(entries, k);
    }
  }

  /** A silent sweep orders the spans of a file. */
  lemma {:induction false} SweptOrdered(spans: seq<Gen>, p: nat, q: nat)
    requires Swept(spans) && p < |spans| && q < |spans| && p != q && spans[p].span.fileId == spans[q].span.fileId
    ensures spans[p].span.end <= spans[q].span.start || spans[q].span.end <= spans[p].span.start
  {
    if p < q {
      SweepSeesAll(spans, p, q);
    } else {
      SweepSeesAll(spans, q, p);
    }
  }

  /** So it separates any two entries. */
  lemma {:induction false} SilentSweepSeparates(entries: seq<Entry>, i: nat, j: nat)
    requires i < j < |entries| && IsEligible(entries[i]) && IsEligible(entries[j])
    requires NeighbourIssues(SortedSpans(entries)) == []
    ensures Apart(entries[i], entries[j])
  {
    var a, b := entries[i].generated.value, entries[j].generated.value;
    if a.fileId == b.fileId {
      SilentSpansOrdered(entries, i, j);
    }
    OrderedApart(entries[i], entries[j]);
  }

  lemma {:induction false} SilentSpansOrdered(entries: seq<Entry>, i: nat, j: nat)
    requires i < j < |entries| && IsEligible(entries[i]) && IsEligible(entries[j])
    requires NeighbourIssues(SortedSpans(entries)) == []
    requires entries[i].generated.value.fileId == entries[j].generated.value.fileId
    ensures var a, b := entries[i].generated.value, entries[j].generated.value; a.end <= b.start || b.end <= a.start
  {
    var p := SortedSpansPosition(entries, i);
    var q := SortedSpansPosition(entries, j);
    SilentSweep(entries);
    var spans := SortedSpans(entries);
    SweptOrdered(spans, p, q);
  }

  lemma {:induction false} OrderedApart(x: Entry, y: Entry)
    requires x.generated.Some? && y.generated.Some?
    requires var a, b := x.generated.value, y.generated.value;
             a.fileId == b.fileId ==> a.end <= b.start || b.end <= a.start
    ensures Apart(x, y)
  {
  }

  /** Every overlap the sweep reports is one. */
  lemma {:induction false} SweepIsSound(entries: seq<Entry>, k: nat)
    requires Reported(SortedSpans(entries), k)
    ensures var i, j := SortedSpans(entries)[k - 1].index, SortedSpans(entries)[k].index;
            i < |entries| && j < |entries| && i != j && !Apart(entries[i], entries[j])
  {
    var spans := SortedSpans(entries);
    SortedSpansMembers(entries, k - 1);
    SortedSpansMembers(entries, k);
    SortedSpansDistinct(entries, k - 1, k);
    GenLeOrders();
    SortSorted(Eligible(entries), GenLe);
    RunsIntoOverlaps(spans[k - 1], spans[k]);
  }

  lemma {:induction false} ApartSymmetric(a: Entry, b: Entry)
    ensures Apart(a, b) <==> Apart(b, a)
  {
  }

  /** The sweep is silent exactly when no two well-formed generated spans share a byte. */
  lemma {:induction false} SilentSweepIff(entries: seq<Entry>)
    requires forall i :: 0 <= i < |entries| ==> SpansWellFormed(entries[i])
    ensures NeighbourIssues(SortedSpans(entries)) == [] <==>
            forall i, j :: 0 <= i < j < |entries| ==> Apart(entries[i], entries[j])
  {
    var spans := SortedSpans(entries);
    if NeighbourIssues(spans) == [] {
      forall i, j | 0 <= i < j < |entries| ensures Apart(entries[i], entries[j]) {
        if IsEligible(entries[i]) && IsEligible(entries[j]) {
          SilentSweepSeparates(entries, i, j);
        }
      }
    } else {
      NeighbourIssuesEmpty(spans);
      var k :| Reported(spans, k);
      SweepIsSound(entries, k);
      var i, j := spans[k - 1].index, spans[k].index;
      ApartSymmetric(entries[i], entries[j]);
    }
  }

  lemma {:induction false} IssueLeOrders()
    ensures TotalPreorder(IssueLe)
  {
  }

  /** No issue is reported exactly for a clean map. */
  lemma {:induction false} SilentIffClean(entries: seq<Entry>)
    ensures ValidationResult(entries) == [] <==> Clean(entries)
  {
    RecordIssuesEmpty(entries);
    if RecordIssues(entries) == [] {
      SilentSweepIff(entries);
    }
  }

  lemma {:induction false} CleanPermutes(a: seq<Entry>, b: seq<Entry>)
    requires multiset(a) == multiset(b) && Clean(a)
    ensures Clean(b)
  {
    forall i | 0 <= i < |b| ensures SpansWellFormed(b[i]) {
      assert b[i] in multiset(a);
    }
    forall i, j | 0 <= i < j < |b| ensures Apart(b[i], b[j]) {
      var k, m := DistinctPositions(a, b, i, j);
      ApartSymmetric(b[i], b[j]);
    }
  }

  /** The verdict does not depend on the order of the entries. */
  lemma {:induction false} VerdictIgnoresOrder(a: seq<Entry>, b: seq<Entry>)
    requires multiset(a) == multiset(b)
    ensures ValidationResult(a) == [] <==> ValidationResult(b) == []
  {
    SilentIffClean(a);
    SilentIffClean(b);
    if Clean(a) {
      CleanPermutes(a, b);
    } else if Clean(b) {
      CleanPermutes(b, a);
    }
  }

  // ---------------------------------------------------------------- what the list holds

  function SpanOf(e: Entry, kind: Kind): Option<Span> {
    if kind == Source then e.source else e.generated
  }

  /** What a diagnostic of the list says about the map. */
  ghost predicate Justified(entries: seq<Entry>, d: Diagnostic) {
    && d.index < |entries| && d.node == entries[d.index].node
    && match d.detail
       case FileIdMissing(kind) =>
         var s := SpanOf(entries[d.index], kind); s.Some? && !FilePresent(s.value)
       case BadRange(kind, present, empty) =>
         var s := SpanOf(entries[d.index], kind);
         s.Some? && s.value.start >= s.value.end && present == FilePresent(s.value)
           && empty == (s.value.start == s.value.end)
       case Overlapping =>
         exists k :: Reported(SortedSpans(entries), k) && SortedSpans(entries)[k].index == d.index
  }

  lemma {:induction false} EntryIssuesMembers(index: nat, e: Entry, d: Diagnostic)
    ensures d in EntryIssues(index, e) <==>
              && d.index == index && d.node == e.node
              && match d.detail
                 case FileIdMissing(kind) => var s := SpanOf(e, kind); s.Some? && !FilePresent(s.value)
                 case BadRange(kind, present, empty) =>
                   var s := SpanOf(e, kind);
                   s.Some? && s.value.start >= s.value.end && present == FilePresent(s.value)
                   && empty == (s.value.start == s.value.end)
                 case Overlapping => false
  {
    var a := if e.source.Some? then SpanIssues(index, e.node, e.source.value, Source) else [];
    var b := if e.generated.Some? then SpanIssues(index, e.node, e.generated.value, Generated) else [];
    assert d in a + b <==> d in a || d in b;
  }

  lemma {:induction false} RecordIssuesMembers(entries: seq<Entry>, d: Diagnostic)
    ensures d in RecordIssues(entries) <==> d.index < |entries| && d in EntryIssues(d.index, entries[d.index])
  {
    if entries != [] {
      var k := |entries| - 1;
      RecordIssuesMembers(entries[..k], d);
      EntryIssuesMembers(k, entries[k], d);
      if d.index < k {
        EntryIssuesMembers(d.index, entries[d.index], d);
      }
    }
  }

  lemma {:induction false} NeighbourIssuesMembers(spans: seq<Gen>, d: Diagnostic)
    ensures d in NeighbourIssues(spans) <==>
              exists k :: Reported(spans, k) && d == Diagnostic(spans[k].index, spans[k].node, Overlapping)
  {
    if |spans| > 1 {
      var k := |spans| - 1;
      var init := spans[..k];
      NeighbourIssuesMembers(init, d);
      forall j | Reported(init, j) ensures Reported(spans, j) && spans[j] == init[j] {
      }
      forall j | Reported(spans, j) && j != k ensures Reported(init, j) && spans[j] == init[j] {
      }
    }
  }

  lemma {:induction false} ResultMembers(entries: seq<Entry>, d: Diagnostic)
    ensures d in ValidationResult(entries) <==> d in RecordIssues(entries) || d in NeighbourIssues(SortedSpans(entries))
  {
    var all := RecordIssues(entries) + NeighbourIssues(SortedSpans(entries));
    assert d in multiset(ValidationResult(entries)) <==> d in multiset(all);
  }

  lemma {:induction false} OverlapMembers(entries: seq<Entry>, d: Diagnostic)
    ensures d in NeighbourIssues(SortedSpans(entries)) <==> d.detail.Overlapping? && Justified(entries, d)
  {
    var spans := SortedSpans(entries);
    NeighbourIssuesMembers(spans, d);
    forall k | Reported(spans, k)
      ensures spans[k].index < |entries| && spans[k].node == entries[spans[k].index].node
    {
      SortedSpansMembers(entries, k);
    }
  }

  lemma {:induction false} RecordMembers(entries: seq<Entry>, d: Diagnostic)
    ensures d in RecordIssues(entries) <==> !d.detail.Overlapping? && Justified(entries, d)
  {
    RecordIssuesMembers(entries, d);
    if d.index < |entries| {
      EntryIssuesMembers(d.index, entries[d.index], d);
    }
  }

  /** The list is sound and tells everything its tests see: a diagnostic is listed exactly when it is
      justified by a blank file, an empty or reversed range, or a span that runs into the next one. */
  lemma {:induction false} ListExact(entries: seq<Entry>, d: Diagnostic)
    ensures d in ValidationResult(entries) <==> Justified(entries, d)
  {
    ResultMembers(entries, d);
    RecordMembers(entries, d);
    OverlapMembers(entries, d);
  }

  /** Span `k` shares a byte with one sorted before it. */
  ghost predicate OverlapsEarlier(spans: seq<Gen>, k: nat)
    requires k < |spans|
  {
    exists j :: 0 <= j < k && !Disjoint(spans[j].span, spans[k].span)
  }

  /** The span before `k` ends by its start, while one before that still covers it. */
  predicate Hidden(spans: seq<Gen>, k: nat)
    requires k < |spans|
  {
    && k > 0 && spans[k - 1].span.fileId == spans[k].span.fileId && spans[k - 1].span.end <= spans[k].span.start
    && exists j :: 0 <= j < k - 1 && RunsInto(spans[j], spans[k])
  }

  lemma {:induction false} EarlierRunsInto(a: Gen, b: Gen)
    requires GenLe(a, b) && a.span.start < a.span.end && b.span.start < b.span.end
    ensures !Disjoint(a.span, b.span) <==> RunsInto(a, b)
  {
    if a.span.fileId == b.span.fileId {
      DisjointIffOrdered(a.span, b.span);
    }
  }

  /** Only the verdict is exact, not the list, and this is what it leaves out: a span that overlaps an
      earlier one goes unreported exactly when it is hidden behind a shorter one. */
  lemma {:induction false} MissedIffHidden(entries: seq<Entry>, k: nat)
    requires k < |SortedSpans(entries)|
    ensures var spans := SortedSpans(entries);
            OverlapsEarlier(spans, k) && !Reported(spans, k) <==> Hidden(spans, k)
  {
    var spans := SortedSpans(entries);
    GenLeOrders();
    SortSorted(Eligible(entries), GenLe);
    SortedSpansMembers(entries, k);
    forall j | 0 <= j < k
      ensures !Disjoint(spans[j].span, spans[k].span) <==> RunsInto(spans[j], spans[k])
      ensures RunsInto(spans[j], spans[k]) ==> spans[k - 1].span.fileId == spans[k].span.fileId
    {
      SortedSpansMembers(entries, j);
      EarlierRunsInto(spans[j], spans[k]);
      if RunsInto(spans[j], spans[k]) && j < k - 1 {
        SameFileBetween(spans[j], spans[k - 1], spans[k]);
      }
    }
  }

  function Generating(x: Span, y: Span, z: Span): seq<Entry> {
    [Entry(0, None, Some(x)), Entry(1, None, Some(y)), Entry(2, None, Some(z))]
  }

  /** The smallest case: for any three spans of a file of which the second lies inside the first and the
      third starts behind the second but still inside the first, only the second is reported. */
  lemma {:induction false} HiddenOverlap(x: Span, y: Span, z: Span)
    requires WellFormed(x) && WellFormed(y) && WellFormed(z) && x.fileId == y.fileId == z.fileId
    requires x.start < y.start < y.end <= z.start < x.end
    ensures !Disjoint(x, z)
    ensures ValidationResult(Generating(x, y, z)) == [Diagnostic(1, 1, Overlapping)]
  {
    DisjointIffOrdered(x, z);
    HiddenEligible(x, y, z);
    HiddenRecords(x, y, z);
    HiddenResult(Generating(x, y, z), Gen(0, 0, x), Gen(1, 1, y), Gen(2, 2, z));
  }

  lemma {:induction false} HiddenResult(entries: seq<Entry>, g0: Gen, g1: Gen, g2: Gen)
    requires RecordIssues(entries) == [] && Eligible(entries) == [g0, g1, g2]
    requires GenLe(g0, g1) && GenLe(g1, g2) && RunsInto(g0, g1) && !RunsInto(g1, g2)
    ensures ValidationResult(entries) == [Diagnostic(g1.index, g1.node, Overlapping)]
  {
    HiddenSort(g0, g1, g2);
    HiddenNeighbours(g0, g1, g2);
    SortOne(Diagnostic(g1.index, g1.node, Overlapping));
  }

  lemma {:induction false} SortOne(d: Diagnostic)
    ensures Sort([] + [d], IssueLe) == [d]
  {
    assert [] + [d] == [d];
  }

  lemma {:induction false} HiddenEligible(x: Span, y: Span, z: Span)
    requires WellFormed(x) && WellFormed(y) && WellFormed(z)
    ensures Eligible(Generating(x, y, z)) == [Gen(0, 0, x), Gen(1, 1, y), Gen(2, 2, z)]
  {
    var e0, e1, e2 := Entry(0, None, Some(x)), Entry(1, None, Some(y)), Entry(2, None, Some(z));
    assert [e0, e1, e2][..2] == [e0, e1] && [e0, e1][..1] == [e0] && [e0][..0] == [];
    assert Eligible([e0]) == [Gen(0, 0, x)];
    assert Eligible([e0, e1]) == [Gen(0, 0, x), Gen(1, 1, y)];
  }

  lemma {:induction false} HiddenRecords(x: Span, y: Span, z: Span)
    requires WellFormed(x) && WellFormed(y) && WellFormed(z)
    ensures RecordIssues(Generating(x, y, z)) == []
  {
    RecordIssuesEmpty(Generating(x, y, z));
  }

  lemma {:induction false} HiddenNeighbours(g0: Gen, g1: Gen, g2: Gen)
    requires RunsInto(g0, g1) && !RunsInto(g1, g2)
    ensures NeighbourIssues([g0, g1, g2]) == [Diagnostic(g1.index, g1.node, Overlapping)]
  {
    assert [g0, g1, g2][..2] == [g0, g1] && [g0, g1][..1] == [g0];
    assert NeighbourIssues([g0, g1]) == [Diagnostic(g1.index, g1.node, Overlapping)];
  }

  lemma {:induction false} HiddenSort(g0: Gen, g1: Gen, g2: Gen)
    requires GenLe(g0, g1) && GenLe(g1, g2)
    ensures Sort([g0, g1, g2], GenLe) == [g0, g1, g2]
  {
    assert [g0, g1, g2][1..] == [g1, g2] && [g1, g2][1..] == [g2] && [g2][1..] == [];
    assert Sort([g2], GenLe) == [g2];
    assert Sort([g1, g2], GenLe) == [g1, g2];
  }
}
