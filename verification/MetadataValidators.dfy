/** The three metadata validators: incremental cache, artifact manifests, compiler reports. */
module MetadataValidators {
  import opened Base
  import opened Text
  import opened Decimal
  import opened Hex
  import opened Validators

  /** The last segment of a path; anything before it is cut to an ellipsis. */
  function RedactId(value: string): string {
    var trimmed := Trim(value);
    var name := LastSegment(trimmed);
    if name == [] then "<missing>" else if name == trimmed then name else ['\U{2026}', '/'] + name
  }

  function LastSegment(s: string): string {
    if s == [] then []
    else if s[|s| - 1] == '/' || s[|s| - 1] == '\\' then []
    else LastSegment(s[..|s| - 1]) + [s[|s| - 1]]
  }

  predicate Missing(value: Option<string>) {
    value.None? || Trim(value.value) == []
  }

  function When(bad: bool, issue: Issue): seq<Issue> {
    if bad then [issue] else []
  }

  // ---------------------------------------------------------------- incremental cache

  const CACHE_SCHEMA := "incremental-cache/1.0"

  datatype CacheEntry = CacheEntry(key: seq<Byte>, schemaVersion: string, snapshotHash: seq<Byte>,
    expectedHash: seq<Byte>)

  function CheckCache(e: CacheEntry): seq<Issue> {
    var id := HexText(e.key);
    When(e.schemaVersion != CACHE_SCHEMA,
         Issue("E_INCREMENTAL_CACHE_STALE_SCHEMA", id, "schema_version", e.schemaVersion))
    + When(e.snapshotHash != e.expectedHash,
           Issue("E_INCREMENTAL_CACHE_HASH_MISMATCH", id, "stage_hashes.graph_snapshot_hash", ""))
  }

  function CacheRules(): Rules<CacheEntry, seq<Byte>> {
    Rules(CheckCache, (e: CacheEntry) => e.key,
          (key: seq<Byte>, n: nat) => Issue("E_INCREMENTAL_CACHE_DUPLICATE_KEY", HexText(key), "cache_key", Dec(n)))
  }

  /** Every issue of every entry, sorted; none exactly for current, matching entries with different keys. */
  method ValidateIncrementalCacheEntries(entries: seq<CacheEntry>) returns (report: seq<Issue>)
    ensures IsFullReport(entries, CacheRules(), report)
    ensures report == [] <==>
            (forall e :: e in entries ==> e.schemaVersion == CACHE_SCHEMA && e.snapshotHash == e.expectedHash)
            && forall i, j :: 0 <= i < j < |entries| ==> entries[i].key != entries[j].key
  {
    report := ValidateSorted(entries, CacheRules());
    EmptyFullReport(entries, CacheRules(), report);
    CacheClean(entries);
  }

  lemma {:induction false} CacheClean(entries: seq<CacheEntry>)
    ensures Clean(entries, CacheRules()) <==>
            (forall e :: e in entries ==> e.schemaVersion == CACHE_SCHEMA && e.snapshotHash == e.expectedHash)
            && forall i, j :: 0 <= i < j < |entries| ==> entries[i].key != entries[j].key
  {
    forall e: CacheEntry ensures CacheRules().check(e) == CheckCache(e) && CacheRules().key(e) == e.key {
    }
  }

  // ---------------------------------------------------------------- artifact manifests

  const MANIFEST_SCHEMA := "artifact-manifest/1.0"

  datatype ManifestEntry = ManifestEntry(artifactId: string, schemaVersion: string, profile: string,
                                         capabilitiesHash: Option<string>, sourceMapHash: Option<string>,
                                         wasmHash: Option<string>, nativeHash: Option<string>)

  predicate ManifestComplete(e: ManifestEntry) {
    && e.schemaVersion == MANIFEST_SCHEMA && Trim(e.profile) != []
    && e.capabilitiesHash.Some? && e.sourceMapHash.Some? && (e.wasmHash.Some? || e.nativeHash.Some?)
  }

  function CheckManifest(e: ManifestEntry): seq<Issue> {
    var id := RedactId(e.artifactId);
    When(e.schemaVersion != MANIFEST_SCHEMA,
         Issue("E_ARTIFACT_MANIFEST_SCHEMA_MISMATCH", id, "schema_version", e.schemaVersion))
    + When(Trim(e.profile) == [], Issue("E_ARTIFACT_MANIFEST_MISSING_PROFILE", id, "profile", ""))
    + When(e.capabilitiesHash.None?, Issue("E_ARTIFACT_MANIFEST_MISSING_HASH", id, "capabilities_manifest_hash", ""))
    + When(e.sourceMapHash.None?, Issue("E_ARTIFACT_MANIFEST_MISSING_HASH", id, "source_map_hash", ""))
    + When(e.wasmHash.None? && e.nativeHash.None?,
           Issue("E_ARTIFACT_MANIFEST_MISSING_HASH", id, "wasm_hash|native_hash", ""))
  }

  function ManifestRules(): Rules<ManifestEntry, string> {
    Rules(CheckManifest, (e: ManifestEntry) => e.artifactId,
          (id: string, n: nat) => Issue("E_ARTIFACT_MANIFEST_DUPLICATE_ARTIFACT", RedactId(id), "artifact_id", Dec(n)))
  }

  /** Every issue once, strictly sorted; none exactly for complete manifests with different ids. */
  method ValidateArtifactManifestEntries(entries: seq<ManifestEntry>) returns (report: seq<Issue>)
    ensures IsReport(entries, ManifestRules(), report)
    ensures report == [] <==>
            (forall e :: e in entries ==> ManifestComplete(e))
            && forall i, j :: 0 <= i < j < |entries| ==> entries[i].artifactId != entries[j].artifactId
  {
    report := ValidateDeduped(entries, ManifestRules());
    EmptyReport(entries, ManifestRules(), report);
    ManifestsClean(entries);
  }

  lemma {:induction false} ManifestsClean(entries: seq<ManifestEntry>)
    ensures Clean(entries, ManifestRules()) <==>
            (forall e :: e in entries ==> ManifestComplete(e))
            && forall i, j :: 0 <= i < j < |entries| ==> entries[i].artifactId != entries[j].artifactId
  {
    forall e: ManifestEntry
      ensures (ManifestRules().check(e) == [] <==> ManifestComplete(e)) && ManifestRules().key(e) == e.artifactId
    {
    }
  }

  // ---------------------------------------------------------------- compiler reports

  const REPORT_SCHEMA := "compiler/1.0"

  datatype ReportEntry = ReportEntry(outputId: string, artifact: Option<string>, target: Option<string>,
                                     artifactHash: Option<string>, profile: string, schemaVersion: string)

  predicate ReportComplete(e: ReportEntry) {
    && !Missing(e.artifact) && !Missing(e.artifactHash) && !Missing(e.target)
    && Trim(e.profile) != [] && e.schemaVersion == REPORT_SCHEMA
  }

  function CheckReport(e: ReportEntry): seq<Issue> {
    var id := RedactId(e.outputId);
    When(Missing(e.artifact), Issue("E_COMPILER_REPORT_MISSING_ARTIFACT", id, "artifact", ""))
    + When(Missing(e.artifactHash), Issue("E_COMPILER_REPORT_MISSING_HASH", id, "artifact_hash", ""))
    + When(Missing(e.target), Issue("E_COMPILER_REPORT_MISSING_TARGET", id, "target", ""))
    + When(Trim(e.profile) == [], Issue("E_COMPILER_REPORT_MISSING_PROFILE", id, "profile", ""))
    + When(e.schemaVersion != REPORT_SCHEMA, Issue("E_COMPILER_REPORT_STALE_SCHEMA", id, "schema_version", ""))
  }

  function ReportRules(): Rules<ReportEntry, string> {
    Rules(CheckReport, (e: ReportEntry) => e.outputId,
          (id: string, n: nat) => Issue("E_COMPILER_REPORT_DUPLICATE_OUTPUT", RedactId(id), "output_id", Dec(n)))
  }

  /** Every issue once, strictly sorted; none exactly for complete outputs with different ids. */
  method ValidateCompilerReportEntries(entries: seq<ReportEntry>) returns (report: seq<Issue>)
    ensures IsReport(entries, ReportRules(), report)
    ensures report == [] <==>
            (forall e :: e in entries ==> ReportComplete(e))
            && forall i, j :: 0 <= i < j < |entries| ==> entries[i].outputId != entries[j].outputId
  {
    report := ValidateDeduped(entries, ReportRules());
    EmptyReport(entries, ReportRules(), report);
    ReportsClean(entries);
  }

  lemma {:induction false} ReportsClean(entries: seq<ReportEntry>)
    ensures Clean(entries, ReportRules()) <==>
            (forall e :: e in entries ==> ReportComplete(e))
            && forall i, j :: 0 <= i < j < |entries| ==> entries[i].outputId != entries[j].outputId
  {
    forall e: ReportEntry
      ensures (ReportRules().check(e) == [] <==> ReportComplete(e)) && ReportRules().key(e) == e.outputId
    {
    }
  }
}
