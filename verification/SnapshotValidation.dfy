// The strict validator: it re-derives every count of a manifest and reads back every blob.
module SnapshotValidation {
  import opened Wrappers
  import opened SnapshotFormat
  import BlobNames
  import BlobAttribution

  datatype Problem =
    | ManifestInvalid(reason: string)
    | InvalidRootGroup(index: nat)
    | InvalidSkippedEntry(index: nat)
    | InvalidSavedEntry(index: nat)
    | ExceedsTotal(index: nat)
    | UnreadableBlob(index: nat)

  datatype Entry = Entry(index: nat, name: string, payload: Bytes, root: Option<nat>)

  datatype Report = Report(found: bool, manifest: Option<Json>, entries: seq<Entry>,
                           skipped: seq<Json>, errors: seq<Problem>, complete: bool)

  // ---------- the manifest as a whole ----------

  const SAVED_KEYS := {"name", "file", "bytes", "sha256"}
  const STATS_KEYS := {"attemptedVariables", "serializedVariables", "boundedVariables",
                       "reusedBlobs", "reusedBytes", "writtenBlobs", "writtenBytes", "durationMs"}

  function ShapeProblem(j: Json): Option<string> {
    if !j.JObject? then Some("manifest must be an object")
    else if !ExactKeys(j.members, {"version", "saved"}, {"skipped", "totalBytes", "stats", "namespaceCheckpoint"})
    then Some("manifest has wrong keys")
    else if !j.members["version"].JInt? then Some("manifest version must be an integer")
    else if j.members["version"].i !in {1, SNAPSHOT_VERSION} then Some("unsupported snapshot version")
    else if !j.members["saved"].JArray? then Some("manifest saved must be an array")
    else if "skipped" in j.members && !j.members["skipped"].JArray? then Some("manifest skipped must be an array")
    else if "namespaceCheckpoint" in j.members && !ValidCheckpoint(j.members["namespaceCheckpoint"])
    then Some("manifest namespaceCheckpoint is invalid")
    else None
  }

  predicate WellShaped(j: Json) { ShapeProblem(j).None? }

  function Saved(j: Json): seq<Json>
    requires WellShaped(j)
  {
    j.members["saved"].items
  }

  function Skipped(j: Json): seq<Json>
    requires WellShaped(j)
  {
    if "skipped" in j.members then j.members["skipped"].items else []
  }

  function Version(j: Json): int
    requires WellShaped(j)
  {
    j.members["version"].i
  }

  predicate CanonicalItem(item: Json) {
    item.JObject? && ExactKeys(item.members, SAVED_KEYS, {}) && NonNegativeInteger(item.members["bytes"])
  }

  ghost function DeclaredSizes(saved: seq<Json>): Option<seq<nat>> {
    if forall k :: 0 <= k < |saved| ==> CanonicalItem(saved[k])
    then Some(seq(|saved|, k requires 0 <= k < |saved| => saved[k].members["bytes"].i))
    else None
  }

  method ReadDeclaredSizes(saved: seq<Json>) returns (sizes: Option<seq<nat>>)
    ensures sizes == DeclaredSizes(saved)
  {
    var counts: seq<nat> := [];
    for k := 0 to |saved|
      invariant forall i :: 0 <= i < k ==> CanonicalItem(saved[i])
      invariant |counts| == k && forall i :: 0 <= i < k ==> counts[i] == saved[i].members["bytes"].i
    {
      if !CanonicalItem(saved[k]) {
        return None;
      }
      counts := counts + [saved[k].members["bytes"].i];
    }
    assert counts == seq(|saved|, k requires 0 <= k < |saved| => saved[k].members["bytes"].i);
    return Some(counts);
  }

  function TotalProblem(j: Json, sizes: Option<seq<nat>>): Option<string>
    requires WellShaped(j)
  {
    if "totalBytes" !in j.members then None
    else
      var total := j.members["totalBytes"];
      if !NonNegativeInteger(total) || total.i > TOTAL_SNAPSHOT_LIMIT then Some("manifest totalBytes is invalid")
      else if sizes.None? then Some("manifest totalBytes cannot be reconciled with malformed saved entries")
      else if total.i != BlobAttribution.Sum(sizes.value) then Some("manifest totalBytes mismatch")
      else None
  }

  function Power2(n: nat): nat { if n == 0 then 1 else 2 * Power2(n - 1) }

  // Integers this large do not convert to a float.
  function FloatOverflow(): int { Power2(1024) - Power2(970) }

  predicate ValidDuration(j: Json) {
    || (j.JInt? && 0 <= j.i < FloatOverflow())
    || (j.JFloat? && j.finite && j.value >= 0.0)
  }

  // A reason that is an array or an object cannot be looked up and aborts the validation.
  predicate Unhashable(item: Json) {
    item.JObject? && (Get(item.members, "reason").JArray? || Get(item.members, "reason").JObject?)
  }

  predicate IsBounded(item: Json) {
    item.JObject? && Get(item.members, "reason") in {JString(PER_VARIABLE_REASON), JString(TOTAL_REASON)}
  }

  function BoundedCount(skipped: seq<Json>): nat {
    if skipped == [] then 0
    else BoundedCount(skipped[..|skipped| - 1]) + if IsBounded(skipped[|skipped| - 1]) then 1 else 0
  }

  predicate IntegerStats(stats: map<string, Json>) {
    && STATS_KEYS <= stats.Keys
    && forall key :: key in STATS_KEYS && key != "durationMs" ==> NonNegativeInteger(stats[key])
  }

  function StatsShapeProblem(stats: Json): Option<string> {
    if !stats.JObject? then Some("manifest stats must be an object")
    else if !ExactKeys(stats.members, STATS_KEYS, {}) then Some("manifest stats has wrong keys")
    else if !IntegerStats(stats.members) then Some("manifest stats must be non-negative integers")
    else if !ValidDuration(stats.members["durationMs"])
    then Some("manifest stats durationMs must be a finite non-negative number")
    else None
  }

  ghost function StatsCountProblem(m: map<string, Json>, sizes: seq<nat>, skipped: seq<Json>): Option<string>
    requires IntegerStats(m)
  {
    if m["attemptedVariables"].i != |sizes| + |skipped| then Some("manifest stats attemptedVariables mismatch")
    else if m["serializedVariables"].i != |sizes| then Some("manifest stats serializedVariables mismatch")
    else if exists k :: 0 <= k < |skipped| && Unhashable(skipped[k]) then Some("invalid snapshot")
    else if m["boundedVariables"].i != BoundedCount(skipped) then Some("manifest stats boundedVariables mismatch")
    else if m["reusedBlobs"].i + m["writtenBlobs"].i != |sizes| then Some("manifest stats blob total mismatch")
    else if m["reusedBytes"].i + m["writtenBytes"].i != BlobAttribution.Sum(sizes)
    then Some("manifest stats byte total mismatch")
    else if !BlobAttribution.Accepted(sizes, m["reusedBlobs"].i, m["reusedBytes"].i)
    then Some("manifest stats reused/written attribution is impossible")
    else None
  }

  ghost function StatsProblem(stats: Json, sizes: Option<seq<nat>>, skipped: seq<Json>): Option<string> {
    if StatsShapeProblem(stats).Some? then StatsShapeProblem(stats)
    else if sizes.None? then Some("manifest stats cannot be reconciled with malformed saved entries")
    else StatsCountProblem(stats.members, sizes.value, skipped)
  }

  ghost function ManifestProblem(j: Json): Option<string> {
    if !WellShaped(j) then ShapeProblem(j)
    else
      var sizes := DeclaredSizes(Saved(j));
      if TotalProblem(j, sizes).Some? then TotalProblem(j, sizes)
      else if "stats" in j.members then StatsProblem(j.members["stats"], sizes, Skipped(j))
      else None
  }

  // ---------- which manifests are sound ----------

  function ByteCount(item: Json): nat {
    if CanonicalItem(item) then item.members["bytes"].i else 0
  }

  function DeclaredTotal(saved: seq<Json>, n: nat): nat
    requires n <= |saved|
  {
    if n == 0 then 0 else DeclaredTotal(saved, n - 1) + ByteCount(saved[n - 1])
  }

  ghost predicate AllCanonical(saved: seq<Json>) {
    forall k :: 0 <= k < |saved| ==> CanonicalItem(saved[k])
  }

  function SizesOf(saved: seq<Json>): (r: seq<nat>)
    ensures |r| == |saved| && forall k :: 0 <= k < |saved| ==> r[k] == ByteCount(saved[k])
  {
    seq(|saved|, k requires 0 <= k < |saved| => ByteCount(saved[k]))
  }

  ghost predicate SoundShape(j: Json) {
    && j.JObject? && {"version", "saved"} <= j.members.Keys
    && j.members.Keys <= {"version", "saved", "skipped", "totalBytes", "stats", "namespaceCheckpoint"}
    && j.members["version"] in {JInt(1), JInt(SNAPSHOT_VERSION)} && j.members["saved"].JArray?
    && ("skipped" in j.members ==> j.members["skipped"].JArray?)
    && ("namespaceCheckpoint" in j.members ==> ValidCheckpoint(j.members["namespaceCheckpoint"]))
  }

  // The blob statistics name a real split of the entries: some set of exactly so many of
  // them has exactly that many bytes, the others were written, and the work guard allows
  // the search for it.
  ghost predicate SoundSplit(m: map<string, Json>, sizes: seq<nat>, blobs: nat, bytes: nat)
    requires STATS_KEYS <= m.Keys
  {
    && m["reusedBlobs"] == JInt(blobs) && m["writtenBlobs"] == JInt(|sizes| - blobs)
    && m["reusedBytes"] == JInt(bytes) && m["writtenBytes"] == JInt(BlobAttribution.Sum(sizes) - bytes)
    && BlobAttribution.Attributable(sizes, blobs, bytes)
    && !BlobAttribution.GuardExceeded(sizes, blobs, bytes)
  }

  ghost predicate SoundCounts(m: map<string, Json>, sizes: seq<nat>, skipped: seq<Json>)
    requires STATS_KEYS <= m.Keys
  {
    && m["attemptedVariables"] == JInt(|sizes| + |skipped|)
    && m["serializedVariables"] == JInt(|sizes|)
    && (forall k :: 0 <= k < |skipped| ==> !Unhashable(skipped[k]))
    && m["boundedVariables"] == JInt(|set k | 0 <= k < |skipped| && IsBounded(skipped[k])|)
    && exists blobs: nat, bytes: nat :: SoundSplit(m, sizes, blobs, bytes)
  }

  ghost predicate SoundStats(stats: Json, sizes: seq<nat>, skipped: seq<Json>) {
    && stats.JObject? && stats.members.Keys == STATS_KEYS
    && ValidDuration(stats.members["durationMs"])
    && SoundCounts(stats.members, sizes, skipped)
  }

  ghost predicate SoundManifest(j: Json) {
    && SoundShape(j)
    && var saved := j.members["saved"].items;
    && var skipped := if "skipped" in j.members then j.members["skipped"].items else [];
    && ("totalBytes" in j.members ==>
          && AllCanonical(saved) && DeclaredTotal(saved, |saved|) <= TOTAL_SNAPSHOT_LIMIT
          && j.members["totalBytes"] == JInt(DeclaredTotal(saved, |saved|)))
    && ("stats" in j.members ==> AllCanonical(saved) && SoundStats(j.members["stats"], SizesOf(saved), skipped))
  }

  lemma {:induction false} BoundedCounts(skipped: seq<Json>)
    ensures BoundedCount(skipped) == |set k | 0 <= k < |skipped| && IsBounded(skipped[k])|
  {
    var all := set k | 0 <= k < |skipped| && IsBounded(skipped[k]);
    if skipped == [] {
      assert all == {};
    } else {
      var n := |skipped| - 1;
      var rest := skipped[..n];
      BoundedCounts(rest);
      assert all == (set k | 0 <= k < |rest| && IsBounded(rest[k])) + if IsBounded(skipped[n]) then {n} else {};
    }
  }

  lemma {:induction false} DeclaredTotalIsSum(saved: seq<Json>, n: nat)
    requires n <= |saved|
    ensures DeclaredTotal(saved, n) == BlobAttribution.Sum(SizesOf(saved)[..n])
  {
    if n > 0 {
      DeclaredTotalIsSum(saved, n - 1);
      assert SizesOf(saved)[..n][..n - 1] == SizesOf(saved)[..n - 1];
    }
  }

  lemma DeclaredExactly(saved: seq<Json>)
    ensures DeclaredSizes(saved) == if AllCanonical(saved) then Some(SizesOf(saved)) else None
    ensures BlobAttribution.Sum(SizesOf(saved)) == DeclaredTotal(saved, |saved|)
  {
    if AllCanonical(saved) { assert DeclaredSizes(saved).value == SizesOf(saved); }
    DeclaredTotalIsSum(saved, |saved|);
    assert SizesOf(saved)[..|saved|] == SizesOf(saved);
  }

  // That the written counts are not negative follows from the attribution.
  lemma SplitExactly(m: map<string, Json>, sizes: seq<nat>)
    requires m.Keys == STATS_KEYS
    ensures (exists blobs: nat, bytes: nat :: SoundSplit(m, sizes, blobs, bytes))
            <==> && NonNegativeInteger(m["reusedBlobs"]) && NonNegativeInteger(m["writtenBlobs"])
                 && NonNegativeInteger(m["reusedBytes"]) && NonNegativeInteger(m["writtenBytes"])
                 && m["reusedBlobs"].i + m["writtenBlobs"].i == |sizes|
                 && m["reusedBytes"].i + m["writtenBytes"].i == BlobAttribution.Sum(sizes)
                 && BlobAttribution.Accepted(sizes, m["reusedBlobs"].i, m["reusedBytes"].i)
  {
    if blobs: nat, bytes: nat :| SoundSplit(m, sizes, blobs, bytes) {
      BlobAttribution.InRange(sizes, blobs, bytes);
    }
    if NonNegativeInteger(m["reusedBlobs"]) && NonNegativeInteger(m["reusedBytes"]) {
      var blobs, bytes := m["reusedBlobs"].i, m["reusedBytes"].i;
      if m["writtenBlobs"] == JInt(|sizes| - blobs) && m["writtenBytes"] == JInt(BlobAttribution.Sum(sizes) - bytes)
         && BlobAttribution.Accepted(sizes, blobs, bytes)
      {
        assert SoundSplit(m, sizes, blobs, bytes);
      }
    }
  }

  lemma IntegersOneByOne(m: map<string, Json>)
    requires m.Keys == STATS_KEYS
    ensures IntegerStats(m)
            <==> && NonNegativeInteger(m["attemptedVariables"]) && NonNegativeInteger(m["serializedVariables"])
                 && NonNegativeInteger(m["boundedVariables"])
                 && NonNegativeInteger(m["reusedBlobs"]) && NonNegativeInteger(m["writtenBlobs"])
                 && NonNegativeInteger(m["reusedBytes"]) && NonNegativeInteger(m["writtenBytes"])
  {
  }

  lemma CountsAcceptedExactly(m: map<string, Json>, sizes: seq<nat>, skipped: seq<Json>)
    requires m.Keys == STATS_KEYS
    ensures SoundCounts(m, sizes, skipped)
            <==> IntegerStats(m) && StatsCountProblem(m, sizes, skipped).None?
  {
    IntegersOneByOne(m);
    SplitExactly(m, sizes);
    BoundedCounts(skipped);
  }

  // The statistics are accepted exactly if they are the true counts and name a real split.
  lemma StatsAcceptedExactly(stats: Json, sizes: seq<nat>, skipped: seq<Json>)
    ensures StatsProblem(stats, Some(sizes), skipped).None? <==> SoundStats(stats, sizes, skipped)
  {
    if stats.JObject? && stats.members.Keys == STATS_KEYS {
      CountsAcceptedExactly(stats.members, sizes, skipped);
    }
  }

  lemma ShapeExactly(j: Json)
    ensures WellShaped(j) <==> SoundShape(j)
  {
  }

  lemma TotalExactly(j: Json)
    requires WellShaped(j)
    ensures TotalProblem(j, DeclaredSizes(Saved(j))).None?
            <==> ("totalBytes" in j.members ==>
                    && AllCanonical(Saved(j)) && DeclaredTotal(Saved(j), |Saved(j)|) <= TOTAL_SNAPSHOT_LIMIT
                    && j.members["totalBytes"] == JInt(DeclaredTotal(Saved(j), |Saved(j)|)))
  {
    DeclaredExactly(Saved(j));
  }

  // A manifest is accepted as a whole exactly if it is sound.
  lemma ManifestAcceptedExactly(j: Json)
    ensures ManifestProblem(j).None? <==> SoundManifest(j)
  {
    ShapeExactly(j);
    if WellShaped(j) {
      TotalExactly(j);
      DeclaredExactly(Saved(j));
      if "stats" in j.members {
        StatsAcceptedExactly(j.members["stats"], SizesOf(Saved(j)), Skipped(j));
      }
    }
  }

  // ---------- single entries ----------

  function StringMember(item: Json, key: string): Option<string> {
    if item.JObject? && Get(item.members, key).JString? then Some(item.members[key].s) else None
  }

  function Names(items: seq<Json>): (r: seq<Option<string>>)
    ensures |r| == |items| && forall k :: 0 <= k < |items| ==> r[k] == StringMember(items[k], "name")
  {
    seq(|items|, k requires 0 <= k < |items| => StringMember(items[k], "name"))
  }

  function Numbers(item: Json, version: int): Option<(nat, nat)> {
    var file := StringMember(item, "file");
    if version == SNAPSHOT_VERSION && file.Some? then BlobNames.ParseBlobName(file.value) else None
  }

  predicate UsableFile(item: Json, version: int) {
    Numbers(item, version).Some?
    || (StringMember(item, "file").Some? && SafeBasename(StringMember(item, "file").value))
  }

  function Files(saved: seq<Json>, version: int): (r: seq<Option<string>>)
    ensures |r| == |saved|
    ensures forall k :: 0 <= k < |saved| ==>
              r[k] == if UsableFile(saved[k], version) then StringMember(saved[k], "file") else None
  {
    seq(|saved|, k requires 0 <= k < |saved| =>
      if UsableFile(saved[k], version) then StringMember(saved[k], "file") else None)
  }

  // The entry's root group, if its file name states one whose owner vouches for it.
  function RootGroup(saved: seq<Json>, version: int, index: nat): Option<nat>
    requires index < |saved|
  {
    var numbers := Numbers(saved[index], version);
    if numbers.None? then None
    else
      var (ordinal, group) := numbers.value;
      if ordinal == index && group <= index
         && StringMember(saved[group], "file") == Some(BlobNames.BlobName(group, group))
      then Some(group) else None
  }

  predicate BadGroup(saved: seq<Json>, version: int, index: nat)
    requires index < |saved|
  {
    saved[index].JObject? && version == SNAPSHOT_VERSION && RootGroup(saved, version, index).None?
  }

  predicate ValidItem(item: Json, version: int) {
    && CanonicalItem(item)
    && item.members["name"].JString?
    && UsableFile(item, version)
    && item.members["bytes"].i <= PER_VARIABLE_LIMIT
    && item.members["sha256"].JString? && IsDigest(item.members["sha256"].s)
  }

  predicate ValidSaved(saved: seq<Json>, skipped: seq<Json>, version: int, index: nat)
    requires index < |saved|
  {
    && ValidItem(saved[index], version)
    && !Repeated(Names(saved), index)
    && !Repeated(Files(saved, version), index)
    && Names(saved)[index] !in Names(skipped)
  }

  predicate ValidSkipped(saved: seq<Json>, skipped: seq<Json>, index: nat)
    requires index < |skipped|
  {
    && skipped[index].JObject? && ExactKeys(skipped[index].members, {"name", "reason"}, {})
    && StringMember(skipped[index], "name").Some? && StringMember(skipped[index], "reason").Some?
    && !Repeated(Names(skipped), index)
    && Names(skipped)[index] !in Names(saved)
  }

  // ---------- the report, prefix by prefix ----------

  function GroupProblems(saved: seq<Json>, version: int, n: nat): seq<Problem>
    requires n <= |saved|
  {
    if n == 0 then []
    else
      GroupProblems(saved, version, n - 1)
      + if BadGroup(saved, version, n - 1) then [InvalidRootGroup(n - 1)] else []
  }

  function SkippedProblems(saved: seq<Json>, skipped: seq<Json>, n: nat): (seq<Problem>, seq<Json>)
    requires n <= |skipped|
  {
    if n == 0 then ([], [])
    else
      var (errors, kept) := SkippedProblems(saved, skipped, n - 1);
      if ValidSkipped(saved, skipped, n - 1) then (errors, kept + [skipped[n - 1]])
      else (errors + [InvalidSkippedEntry(n - 1)], kept)
  }

  datatype Reading = Reading(entries: seq<Entry>, errors: seq<Problem>, total: nat)

  function ReadOne(sha: Bytes -> string, files: map<string, FileNode>, saved: seq<Json>, skipped: seq<Json>,
                   version: int, index: nat, before: Reading): Reading
    requires index < |saved|
  {
    if !ValidSaved(saved, skipped, version, index)
    then before.(errors := before.errors + [InvalidSavedEntry(index)])
    else
      var item := saved[index].members;
      if before.total + item["bytes"].i > TOTAL_SNAPSHOT_LIMIT
      then before.(errors := before.errors + [ExceedsTotal(index)])
      else if !ReadsBack(sha, files, item["file"].s, item["bytes"].i, item["sha256"].s)
      then before.(errors := before.errors + [UnreadableBlob(index)])
      else Reading(before.entries + [Entry(index, item["name"].s, files[item["file"].s].content,
                                           RootGroup(saved, version, index))],
                   before.errors, before.total + item["bytes"].i)
  }

  function ReadEntries(sha: Bytes -> string, files: map<string, FileNode>, saved: seq<Json>, skipped: seq<Json>,
                       version: int, n: nat): Reading
    requires n <= |saved|
  {
    if n == 0 then Reading([], [], 0)
    else ReadOne(sha, files, saved, skipped, version, n - 1,
                 ReadEntries(sha, files, saved, skipped, version, n - 1))
  }

  function EntriesReport(sha: Bytes -> string, files: map<string, FileNode>, j: Json): Report
    requires WellShaped(j)
  {
    var saved, skipped, version := Saved(j), Skipped(j), Version(j);
    var (skippedErrors, kept) := SkippedProblems(saved, skipped, |skipped|);
    var read := ReadEntries(sha, files, saved, skipped, version, |saved|);
    var errors := GroupProblems(saved, version, |saved|) + skippedErrors + read.errors;
    Report(true, Some(j), read.entries, kept, errors, errors == [] && |read.entries| == |saved|)
  }

  ghost function ReportOf(sha: Bytes -> string, source: Option<SnapshotDirectory>): Report {
    if source.None? then Report(false, None, [], [], [], false)
    else
      var file := source.value.manifest;
      if file.Unreadable? || file.size > MANIFEST_LIMIT
      then Report(true, None, [], [], [ManifestInvalid("invalid manifest")], false)
      else
        var j, problem := file.value, ManifestProblem(file.value);
        if problem.Some? then Report(true, Some(j), [], [], [ManifestInvalid(problem.value)], false)
        else EntriesReport(sha, source.value.files, j)
  }

  // ---------- the validator itself ----------

  method CountBounded(skipped: seq<Json>) returns (bounded: Option<nat>)
    ensures bounded == if exists k :: 0 <= k < |skipped| && Unhashable(skipped[k]) then None
                       else Some(BoundedCount(skipped))
  {
    var count := 0;
    for k := 0 to |skipped|
      invariant count == BoundedCount(skipped[..k])
      invariant forall i :: 0 <= i < k ==> !Unhashable(skipped[i])
    {
      if Unhashable(skipped[k]) { return None; }
      assert skipped[..k + 1][..k] == skipped[..k];
      count := count + if IsBounded(skipped[k]) then 1 else 0;
    }
    assert skipped[..|skipped|] == skipped;
    return Some(count);
  }

  method CheckCounts(m: map<string, Json>, sizes: seq<nat>, skipped: seq<Json>) returns (problem: Option<string>)
    requires IntegerStats(m)
    ensures problem == StatsCountProblem(m, sizes, skipped)
  {
    if m["attemptedVariables"].i != |sizes| + |skipped| { return Some("manifest stats attemptedVariables mismatch"); }
    if m["serializedVariables"].i != |sizes| { return Some("manifest stats serializedVariables mismatch"); }
    var bounded := CountBounded(skipped);
    if bounded.None? { return Some("invalid snapshot"); }
    if m["boundedVariables"].i != bounded.value { return Some("manifest stats boundedVariables mismatch"); }
    if m["reusedBlobs"].i + m["writtenBlobs"].i != |sizes| { return Some("manifest stats blob total mismatch"); }
    if m["reusedBytes"].i + m["writtenBytes"].i != BlobAttribution.Sum(sizes) {
      return Some("manifest stats byte total mismatch");
    }
    var possible, _ := BlobAttribution.ExactBlobAttributionPossible(sizes, m["reusedBlobs"].i, m["reusedBytes"].i);
    if !possible { return Some("manifest stats reused/written attribution is impossible"); }
    return None;
  }

  method CheckStats(stats: Json, sizes: Option<seq<nat>>, skipped: seq<Json>) returns (problem: Option<string>)
    ensures problem == StatsProblem(stats, sizes, skipped)
    ensures problem.None? <==> sizes.Some? && SoundStats(stats, sizes.value, skipped)
  {
    problem := StatsShapeProblem(stats);
    if problem.None? {
      if sizes.None? { return Some("manifest stats cannot be reconciled with malformed saved entries"); }
      problem := CheckCounts(stats.members, sizes.value, skipped);
    }
    if sizes.Some? { StatsAcceptedExactly(stats, sizes.value, skipped); }
  }

  method CheckManifest(j: Json) returns (problem: Option<string>)
    ensures problem == ManifestProblem(j)
    ensures problem.None? <==> SoundManifest(j)
  {
    ManifestAcceptedExactly(j);
    if !WellShaped(j) { return ShapeProblem(j); }
    var sizes := ReadDeclaredSizes(Saved(j));
    if TotalProblem(j, sizes).Some? { return TotalProblem(j, sizes); }
    if "stats" in j.members {
      problem := CheckStats(j.members["stats"], sizes, Skipped(j));
    } else {
      problem := None;
    }
  }

  method ValidateSnapshotDirectory(sha: Bytes -> string, source: Option<SnapshotDirectory>) returns (report: Report)
    ensures report == ReportOf(sha, source)
    // Nothing is listed unless the manifest is readable and sound, and then every entry is
    // judged on its own.
    ensures !SoundSource(source) ==> report.entries == [] && report.skipped == [] && !report.complete
    ensures SoundSource(source) ==>
              && WellShaped(source.value.manifest.value)
              && ReportJudges(sha, source.value.files, source.value.manifest.value, report)
  {
    if source.Some? && source.value.manifest.Parsed? {
      ManifestAcceptedExactly(source.value.manifest.value);
      ShapeExactly(source.value.manifest.value);
      if WellShaped(source.value.manifest.value) {
        ReportJudgedExactly(sha, source.value.files, source.value.manifest.value);
      }
    }
    if source.None? { return Report(false, None, [], [], [], false); }
    var file := source.value.manifest;
    if file.Unreadable? || file.size > MANIFEST_LIMIT {
      return Report(true, None, [], [], [ManifestInvalid("invalid manifest")], false);
    }
    var problem := CheckManifest(file.value);
    if problem.Some? {
      return Report(true, Some(file.value), [], [], [ManifestInvalid(problem.value)], false);
    }
    report := ValidateEntries(sha, source.value.files, file.value);
  }

  ghost predicate SoundSource(source: Option<SnapshotDirectory>) {
    && source.Some? && source.value.manifest.Parsed? && source.value.manifest.size <= MANIFEST_LIMIT
    && SoundManifest(source.value.manifest.value)
  }

  method CheckRootGroups(saved: seq<Json>, version: int) returns (errors: seq<Problem>)
    ensures errors == GroupProblems(saved, version, |saved|)
  {
    errors := [];
    for n := 0 to |saved|
      invariant errors == GroupProblems(saved, version, n)
    {
      if BadGroup(saved, version, n) { errors := errors + [InvalidRootGroup(n)]; }
    }
  }

  method CheckSkipped(saved: seq<Json>, skipped: seq<Json>) returns (errors: seq<Problem>, kept: seq<Json>)
    ensures (errors, kept) == SkippedProblems(saved, skipped, |skipped|)
  {
    var names := Names(skipped);
    var savedIndexes := IndexBy(Names(saved));
    var indexes := IndexBy(names);
    errors, kept := [], [];
    for n := 0 to |skipped|
      invariant (errors, kept) == SkippedProblems(saved, skipped, n)
    {
      var item := skipped[n];
      if item.JObject? && ExactKeys(item.members, {"name", "reason"}, {})
         && names[n].Some? && StringMember(item, "reason").Some?
         && |indexes[names[n].value]| <= 1
         && names[n].value !in savedIndexes
      {
        kept := kept + [item];
      } else {
        errors := errors + [InvalidSkippedEntry(n)];
      }
    }
  }

  method CheckSaved(saved: seq<Json>, skipped: seq<Json>, version: int) returns (valid: seq<bool>)
    ensures |valid| == |saved|
    ensures forall n :: 0 <= n < |saved| ==> (valid[n] <==> ValidSaved(saved, skipped, version, n))
  {
    var names, files := Names(saved), Files(saved, version);
    var indexes := IndexBy(names);
    var fileIndexes := IndexBy(files);
    var skippedIndexes := IndexBy(Names(skipped));
    valid := [];
    for n := 0 to |saved|
      invariant |valid| == n
      invariant forall i :: 0 <= i < n ==> (valid[i] <==> ValidSaved(saved, skipped, version, i))
    {
      valid := valid + [ValidItem(saved[n], version)
                        && |indexes[names[n].value]| <= 1
                        && |fileIndexes[files[n].value]| <= 1
                        && names[n].value !in skippedIndexes];
    }
  }

  method ReadSaved(sha: Bytes -> string, files: map<string, FileNode>, saved: seq<Json>, skipped: seq<Json>,
                   version: int) returns (entries: seq<Entry>, errors: seq<Problem>)
    ensures var read := ReadEntries(sha, files, saved, skipped, version, |saved|);
            entries == read.entries && errors == read.errors
    ensures forall k: nat :: k < |saved| ==> EntryJudged(sha, files, saved, skipped, version, entries, errors, k)
  {
    AllJudged(sha, files, saved, skipped, version, |saved|);
    var valid := CheckSaved(saved, skipped, version);
    entries, errors := [], [];
    var total: nat := 0;
    for n := 0 to |saved|
      invariant Reading(entries, errors, total) == ReadEntries(sha, files, saved, skipped, version, n)
    {
      if !valid[n] {
        errors := errors + [InvalidSavedEntry(n)];
      } else {
        var item := saved[n].members;
        if total + item["bytes"].i > TOTAL_SNAPSHOT_LIMIT {
          errors := errors + [ExceedsTotal(n)];
        } else if !ReadsBack(sha, files, item["file"].s, item["bytes"].i, item["sha256"].s) {
          errors := errors + [UnreadableBlob(n)];
        } else {
          entries := entries + [Entry(n, item["name"].s, files[item["file"].s].content,
                                      RootGroup(saved, version, n))];
          total := total + item["bytes"].i;
        }
      }
    }
  }

  method ValidateEntries(sha: Bytes -> string, files: map<string, FileNode>, j: Json) returns (report: Report)
    requires WellShaped(j)
    ensures report == EntriesReport(sha, files, j)
  {
    var saved, skipped, version := Saved(j), Skipped(j), Version(j);
    var groupErrors := CheckRootGroups(saved, version);
    var skippedErrors, kept := CheckSkipped(saved, skipped);
    var entries, entryErrors := ReadSaved(sha, files, saved, skipped, version);
    var errors := groupErrors + skippedErrors + entryErrors;
    report := Report(true, Some(j), entries, kept, errors, errors == [] && |entries| == |saved|);
  }

  // ---------- what a report is worth ----------

  ghost predicate Readable(sha: Bytes -> string, files: map<string, FileNode>, saved: seq<Json>,
                           skipped: seq<Json>, version: int, k: nat)
    requires k < |saved|
  {
    && ValidSaved(saved, skipped, version, k)
    && ReadsBack(sha, files, saved[k].members["file"].s, saved[k].members["bytes"].i, saved[k].members["sha256"].s)
  }

  ghost predicate AllReadable(sha: Bytes -> string, files: map<string, FileNode>, saved: seq<Json>,
                              skipped: seq<Json>, version: int, n: nat)
    requires n <= |saved|
  {
    && (forall k :: 0 <= k < n ==> Readable(sha, files, saved, skipped, version, k))
    && DeclaredTotal(saved, n) <= TOTAL_SNAPSHOT_LIMIT
  }

  lemma ReadOneErrors(sha: Bytes -> string, files: map<string, FileNode>, saved: seq<Json>,
                      skipped: seq<Json>, version: int, n: nat, before: Reading)
    requires n < |saved|
    ensures var after := ReadOne(sha, files, saved, skipped, version, n, before);
            && (after.errors == [] <==>
                  && before.errors == [] && Readable(sha, files, saved, skipped, version, n)
                  && before.total + ByteCount(saved[n]) <= TOTAL_SNAPSHOT_LIMIT)
            && (after.errors == [] ==>
                  |after.entries| == |before.entries| + 1 && after.total == before.total + ByteCount(saved[n]))
  {
  }

  lemma AllReadableStep(sha: Bytes -> string, files: map<string, FileNode>, saved: seq<Json>,
                        skipped: seq<Json>, version: int, n: nat)
    requires n < |saved|
    ensures AllReadable(sha, files, saved, skipped, version, n + 1)
            <==> && AllReadable(sha, files, saved, skipped, version, n)
                 && Readable(sha, files, saved, skipped, version, n)
                 && DeclaredTotal(saved, n) + ByteCount(saved[n]) <= TOTAL_SNAPSHOT_LIMIT
  {
  }

  lemma {:induction false} ReadErrors(sha: Bytes -> string, files: map<string, FileNode>, saved: seq<Json>,
                                      skipped: seq<Json>, version: int, n: nat)
    requires n <= |saved|
    ensures var read := ReadEntries(sha, files, saved, skipped, version, n);
            && (read.errors == [] ==> |read.entries| == n && read.total == DeclaredTotal(saved, n))
            && (read.errors == [] <==> AllReadable(sha, files, saved, skipped, version, n))
  {
    if n > 0 {
      var before := ReadEntries(sha, files, saved, skipped, version, n - 1);
      ReadErrors(sha, files, saved, skipped, version, n - 1);
      ReadOneErrors(sha, files, saved, skipped, version, n - 1, before);
      AllReadableStep(sha, files, saved, skipped, version, n - 1);
      assert ReadEntries(sha, files, saved, skipped, version, n)
             == ReadOne(sha, files, saved, skipped, version, n - 1, before);
    }
  }

  lemma {:induction false} OtherErrors(saved: seq<Json>, skipped: seq<Json>, version: int, n: nat, m: nat)
    requires n <= |saved| && m <= |skipped|
    ensures GroupProblems(saved, version, n) == [] <==> forall k :: 0 <= k < n ==> !BadGroup(saved, version, k)
    ensures SkippedProblems(saved, skipped, m).0 == [] <==> forall k :: 0 <= k < m ==> ValidSkipped(saved, skipped, k)
    decreases n + m
  {
    if n > 0 {
      OtherErrors(saved, skipped, version, n - 1, m);
    } else if m > 0 {
      OtherErrors(saved, skipped, version, n, m - 1);
    }
  }

  // A report is complete exactly when every saved entry is valid, unique, in a vouched-for
  // group and reads back with its declared size and digest, every skipped entry is valid,
  // and everything together stays within the total limit.
  lemma CompleteExactly(sha: Bytes -> string, files: map<string, FileNode>, j: Json)
    requires WellShaped(j)
    ensures var saved, skipped, version := Saved(j), Skipped(j), Version(j);
            EntriesReport(sha, files, j).complete
            <==> && (forall k :: 0 <= k < |saved| ==>
                       Readable(sha, files, saved, skipped, version, k) && !BadGroup(saved, version, k))
                 && (forall k :: 0 <= k < |skipped| ==> ValidSkipped(saved, skipped, k))
                 && DeclaredTotal(saved, |saved|) <= TOTAL_SNAPSHOT_LIMIT
  {
    ReadErrors(sha, files, Saved(j), Skipped(j), Version(j), |Saved(j)|);
    OtherErrors(Saved(j), Skipped(j), Version(j), |Saved(j)|, |Skipped(j)|);
  }

  // The same of the whole validation: there is a directory, its manifest file is readable
  // within its limit and sound, and the entries are as above.
  lemma ReportCompleteExactly(sha: Bytes -> string, source: Option<SnapshotDirectory>)
    ensures ReportOf(sha, source).complete
            <==> && source.Some? && source.value.manifest.Parsed? && source.value.manifest.size <= MANIFEST_LIMIT
                 && var (j, files) := (source.value.manifest.value, source.value.files);
                 && SoundManifest(j) && WellShaped(j)
                 && var (saved, skipped, version) := (Saved(j), Skipped(j), Version(j));
                 && (forall k :: 0 <= k < |saved| ==>
                       Readable(sha, files, saved, skipped, version, k) && !BadGroup(saved, version, k))
                 && (forall k :: 0 <= k < |skipped| ==> ValidSkipped(saved, skipped, k))
                 && DeclaredTotal(saved, |saved|) <= TOTAL_SNAPSHOT_LIMIT
  {
    if source.Some? && source.value.manifest.Parsed? {
      var j := source.value.manifest.value;
      ManifestAcceptedExactly(j);
      if ManifestProblem(j).None? { CompleteExactly(sha, source.value.files, j); }
    }
  }

  // ---------- what exactly is listed, and what exactly is reported ----------

  // The payload bytes of the listed entries before entry k.
  function ListedBytes(entries: seq<Entry>, k: nat): nat {
    if entries == [] then 0
    else
      var last := entries[|entries| - 1];
      ListedBytes(entries[..|entries| - 1], k) + if last.index < k then |last.payload| else 0
  }

  ghost predicate IsListed(entries: seq<Entry>, k: nat) {
    exists p :: 0 <= p < |entries| && entries[p].index == k
  }

  ghost predicate WithinTotal(saved: seq<Json>, entries: seq<Entry>, k: nat)
    requires k < |saved|
  {
    ListedBytes(entries, k) + ByteCount(saved[k]) <= TOTAL_SNAPSHOT_LIMIT
  }

  // Entry k is listed exactly if it is valid, reads back, and stays within the total together
  // with what is listed before it; each error is reported exactly for its own cause.
  ghost predicate EntryJudged(sha: Bytes -> string, files: map<string, FileNode>, saved: seq<Json>,
                              skipped: seq<Json>, version: int, entries: seq<Entry>, errors: seq<Problem>, k: nat)
    requires k < |saved|
  {
    && (IsListed(entries, k) <==>
          Readable(sha, files, saved, skipped, version, k) && WithinTotal(saved, entries, k))
    && (InvalidSavedEntry(k) in errors <==> !ValidSaved(saved, skipped, version, k))
    && (ExceedsTotal(k) in errors <==>
          ValidSaved(saved, skipped, version, k) && !WithinTotal(saved, entries, k))
    && (UnreadableBlob(k) in errors <==>
          && ValidSaved(saved, skipped, version, k) && WithinTotal(saved, entries, k)
          && !Readable(sha, files, saved, skipped, version, k))
  }

  ghost predicate About(problem: Problem, k: nat) {
    problem in {InvalidSavedEntry(k), ExceedsTotal(k), UnreadableBlob(k)}
  }

  ghost predicate Judged(sha: Bytes -> string, files: map<string, FileNode>, saved: seq<Json>,
                         skipped: seq<Json>, version: int, n: nat, read: Reading)
    requires n <= |saved|
  {
    && read.total == ListedBytes(read.entries, n)
    && (forall p :: 0 <= p < |read.entries| ==> read.entries[p].index < n)
    && (forall e :: e in read.errors ==> exists k: nat :: k < n && About(e, k))
    && forall k: nat :: k < n ==>
         EntryJudged(sha, files, saved, skipped, version, read.entries, read.errors, k)
  }

  lemma {:induction false} ListedBelow(entries: seq<Entry>, j: nat, k: nat)
    requires forall p :: 0 <= p < |entries| ==> entries[p].index < j && entries[p].index < k
    ensures ListedBytes(entries, j) == ListedBytes(entries, k)
  {
    if entries != [] { ListedBelow(entries[..|entries| - 1], j, k); }
  }

  // A later entry changes nothing for the ones before it.
  lemma LaterEntry(entries: seq<Entry>, entries': seq<Entry>, n: nat, k: nat)
    requires entries' == entries || (|entries'| == |entries| + 1 && entries'[..|entries|] == entries
                                     && entries'[|entries|].index == n)
    requires k < n
    ensures ListedBytes(entries', k) == ListedBytes(entries, k) && (IsListed(entries', k) <==> IsListed(entries, k))
  {
    if entries' != entries {
      if p :| 0 <= p < |entries| && entries[p].index == k { assert entries'[p] == entries'[..|entries|][p]; }
      if p :| 0 <= p < |entries'| && entries'[p].index == k { assert entries'[p] == entries[p]; }
    }
  }

  // What reading entry n adds: itself, or one error about it.
  lemma ReadOneAdds(sha: Bytes -> string, files: map<string, FileNode>, saved: seq<Json>,
                    skipped: seq<Json>, version: int, n: nat, before: Reading, after: Reading)
    requires n < |saved| && after == ReadOne(sha, files, saved, skipped, version, n, before)
    ensures var valid, within := ValidSaved(saved, skipped, version, n),
                                 before.total + ByteCount(saved[n]) <= TOTAL_SNAPSHOT_LIMIT;
            var readable := Readable(sha, files, saved, skipped, version, n);
            if readable && within then
              && after.errors == before.errors && |after.entries| == |before.entries| + 1
              && after.entries[..|before.entries|] == before.entries
              && after.entries[|before.entries|].index == n
              && |after.entries[|before.entries|].payload| == ByteCount(saved[n])
              && after.total == before.total + ByteCount(saved[n])
            else
              && after.entries == before.entries && after.total == before.total
              && after.errors == before.errors + [if !valid then InvalidSavedEntry(n)
                                                  else if !within then ExceedsTotal(n) else UnreadableBlob(n)]
  {
  }

  lemma EarlierJudged(sha: Bytes -> string, files: map<string, FileNode>, saved: seq<Json>,
                      skipped: seq<Json>, version: int, n: nat, before: Reading, after: Reading, k: nat)
    requires k < n < |saved| && after == ReadOne(sha, files, saved, skipped, version, n, before)
    requires EntryJudged(sha, files, saved, skipped, version, before.entries, before.errors, k)
    ensures EntryJudged(sha, files, saved, skipped, version, after.entries, after.errors, k)
  {
    ReadOneAdds(sha, files, saved, skipped, version, n, before, after);
    LaterEntry(before.entries, after.entries, n, k);
    assert forall e :: About(e, k) ==> (e in after.errors <==> e in before.errors);
  }

  lemma NewJudged(sha: Bytes -> string, files: map<string, FileNode>, saved: seq<Json>,
                  skipped: seq<Json>, version: int, n: nat, before: Reading, after: Reading)
    requires n < |saved| && after == ReadOne(sha, files, saved, skipped, version, n, before)
    requires Judged(sha, files, saved, skipped, version, n, before)
    ensures EntryJudged(sha, files, saved, skipped, version, after.entries, after.errors, n)
    ensures after.total == ListedBytes(after.entries, n + 1)
    ensures forall p :: 0 <= p < |after.entries| ==> after.entries[p].index < n + 1
  {
    ReadOneAdds(sha, files, saved, skipped, version, n, before, after);
    ListedBelow(before.entries, n, n + 1);
    var m := |before.entries|;
    assert forall p :: 0 <= p < m ==> after.entries[p] == after.entries[..m][p] == before.entries[p];
    assert ListedBytes(after.entries, n) == ListedBytes(before.entries, n);
    assert forall e :: About(e, n) ==> e !in before.errors;
    if |after.entries| > m { assert after.entries[m].index == n; }
  }

  lemma JudgeOne(sha: Bytes -> string, files: map<string, FileNode>, saved: seq<Json>,
                 skipped: seq<Json>, version: int, n: nat, before: Reading, after: Reading)
    requires n < |saved| && after == ReadOne(sha, files, saved, skipped, version, n, before)
    requires Judged(sha, files, saved, skipped, version, n, before)
    ensures Judged(sha, files, saved, skipped, version, n + 1, after)
  {
    NewJudged(sha, files, saved, skipped, version, n, before, after);
    ReadOneAdds(sha, files, saved, skipped, version, n, before, after);
    forall k: nat | k < n
      ensures EntryJudged(sha, files, saved, skipped, version, after.entries, after.errors, k)
    {
      EarlierJudged(sha, files, saved, skipped, version, n, before, after, k);
    }
    forall e | e in after.errors ensures exists k: nat :: k < n + 1 && About(e, k) {
      if e in before.errors {
        var k: nat :| k < n && About(e, k);
        assert k < n + 1;
      } else {
        assert About(e, n);
      }
    }
  }

  lemma {:induction false} AllJudged(sha: Bytes -> string, files: map<string, FileNode>, saved: seq<Json>,
                                     skipped: seq<Json>, version: int, n: nat)
    requires n <= |saved|
    ensures Judged(sha, files, saved, skipped, version, n, ReadEntries(sha, files, saved, skipped, version, n))
  {
    if n > 0 {
      AllJudged(sha, files, saved, skipped, version, n - 1);
      JudgeOne(sha, files, saved, skipped, version, n - 1,
               ReadEntries(sha, files, saved, skipped, version, n - 1),
               ReadEntries(sha, files, saved, skipped, version, n));
    }
  }

  lemma {:induction false} GroupProblemsExactly(saved: seq<Json>, version: int, n: nat, e: Problem)
    requires n <= |saved|
    ensures e in GroupProblems(saved, version, n) <==>
              exists k: nat :: k < n && e == InvalidRootGroup(k) && BadGroup(saved, version, k)
  {
    if n > 0 {
      GroupProblemsExactly(saved, version, n - 1, e);
      if k: nat :| k < n - 1 && e == InvalidRootGroup(k) && BadGroup(saved, version, k) { assert k < n; }
    }
  }

  lemma {:induction false} SkippedProblemsExactly(saved: seq<Json>, skipped: seq<Json>, n: nat, e: Problem)
    requires n <= |skipped|
    ensures e in SkippedProblems(saved, skipped, n).0 <==>
              exists k: nat :: k < n && e == InvalidSkippedEntry(k) && !ValidSkipped(saved, skipped, k)
  {
    if n > 0 {
      SkippedProblemsExactly(saved, skipped, n - 1, e);
      if k: nat :| k < n - 1 && e == InvalidSkippedEntry(k) && !ValidSkipped(saved, skipped, k) { assert k < n; }
    }
  }

  // Position p of the kept entries holds the skipped entry at[p], and at names the valid ones.
  ghost predicate KeptAt(saved: seq<Json>, skipped: seq<Json>, n: nat, kept: seq<Json>, at: seq<nat>)
    requires n <= |skipped|
  {
    && |at| == |kept|
    && (forall p, q :: 0 <= p < q < |at| ==> at[p] < at[q])
    && (forall k: nat :: k in at <==> k < n && ValidSkipped(saved, skipped, k))
    && forall p :: 0 <= p < |at| ==> at[p] < |skipped| && kept[p] == skipped[at[p]]
  }

  lemma {:induction false} KeptExactly(saved: seq<Json>, skipped: seq<Json>, n: nat, kept: seq<Json>)
    returns (at: seq<nat>)
    requires n <= |skipped| && kept == SkippedProblems(saved, skipped, n).1
    ensures KeptAt(saved, skipped, n, kept, at)
  {
    if n == 0 {
      at := [];
      NoneKept(saved, skipped);
    } else {
      var before := SkippedProblems(saved, skipped, n - 1).1;
      var at0 := KeptExactly(saved, skipped, n - 1, before);
      var valid := ValidSkipped(saved, skipped, n - 1);
      at := if valid then at0 + [n - 1] else at0;
      KeepOne(saved, skipped, n - 1, n, before, kept, at0, at, valid);
    }
  }

  lemma NoneKept(saved: seq<Json>, skipped: seq<Json>)
    ensures KeptAt(saved, skipped, 0, [], [])
  {
  }

  lemma KeepOne(saved: seq<Json>, skipped: seq<Json>, n: nat, next: nat, kept: seq<Json>, kept': seq<Json>,
                at: seq<nat>, at': seq<nat>, valid: bool)
    requires n < |skipped| && next == n + 1 && KeptAt(saved, skipped, n, kept, at)
    requires valid == ValidSkipped(saved, skipped, n)
    requires kept' == if valid then kept + [skipped[n]] else kept
    requires at' == if valid then at + [n] else at
    ensures KeptAt(saved, skipped, next, kept', at')
  {
    forall p | 0 <= p < |at| ensures at[p] < n { assert at[p] in at; }
    assert forall k: nat :: k in at' <==> k in at || (valid && k == n);
  }

  // A report on a well-shaped manifest says of every saved and every skipped entry exactly
  // what is the matter with it, and keeps and lists all others.
  ghost predicate ReportJudges(sha: Bytes -> string, files: map<string, FileNode>, j: Json, report: Report)
    requires WellShaped(j)
  {
    var saved, skipped, version := Saved(j), Skipped(j), Version(j);
    && (forall k: nat :: k < |saved| ==>
          && EntryJudged(sha, files, saved, skipped, version, report.entries, report.errors, k)
          && (InvalidRootGroup(k) in report.errors <==> BadGroup(saved, version, k)))
    && (forall k: nat :: k < |skipped| ==>
          (InvalidSkippedEntry(k) in report.errors <==> !ValidSkipped(saved, skipped, k)))
    && Listed(sha, files, saved, skipped, version, |saved|, report.entries)
    && exists at :: KeptAt(saved, skipped, |skipped|, report.skipped, at)
  }

  lemma ReportJudgedExactly(sha: Bytes -> string, files: map<string, FileNode>, j: Json)
    requires WellShaped(j)
    ensures ReportJudges(sha, files, j, EntriesReport(sha, files, j))
  {
    var saved, skipped, version := Saved(j), Skipped(j), Version(j);
    var report, read := EntriesReport(sha, files, j), ReadEntries(sha, files, saved, skipped, version, |saved|);
    AllJudged(sha, files, saved, skipped, version, |saved|);
    ListedEntries(sha, files, saved, skipped, version, |saved|);
    var at := KeptExactly(saved, skipped, |skipped|, report.skipped);
    forall k: nat | k < |saved|
      ensures EntryJudged(sha, files, saved, skipped, version, report.entries, report.errors, k)
      ensures InvalidRootGroup(k) in report.errors <==> BadGroup(saved, version, k)
    {
      ErrorsApart(sha, files, j, read, k);
      assert EntryJudged(sha, files, saved, skipped, version, read.entries, read.errors, k);
    }
    forall k: nat | k < |skipped|
      ensures InvalidSkippedEntry(k) in report.errors <==> !ValidSkipped(saved, skipped, k)
    {
      GroupProblemsExactly(saved, version, |saved|, InvalidSkippedEntry(k));
      SkippedProblemsExactly(saved, skipped, |skipped|, InvalidSkippedEntry(k));
    }
  }

  // Errors of the three kinds of check do not mix.
  lemma ErrorsApart(sha: Bytes -> string, files: map<string, FileNode>, j: Json, read: Reading, k: nat)
    requires WellShaped(j) && k < |Saved(j)|
    requires read == ReadEntries(sha, files, Saved(j), Skipped(j), Version(j), |Saved(j)|)
    requires Judged(sha, files, Saved(j), Skipped(j), Version(j), |Saved(j)|, read)
    ensures var errors := EntriesReport(sha, files, j).errors;
            && (forall e :: About(e, k) ==> (e in errors <==> e in read.errors))
            && (InvalidRootGroup(k) in errors <==> BadGroup(Saved(j), Version(j), k))
  {
    forall e | About(e, k) || e == InvalidRootGroup(k)
      ensures e !in SkippedProblems(Saved(j), Skipped(j), |Skipped(j)|).0
      ensures e in GroupProblems(Saved(j), Version(j), |Saved(j)|)
              <==> e == InvalidRootGroup(k) && BadGroup(Saved(j), Version(j), k)
    {
      GroupProblemsExactly(Saved(j), Version(j), |Saved(j)|, e);
      SkippedProblemsExactly(Saved(j), Skipped(j), |Skipped(j)|, e);
    }
  }

  ghost predicate Listed(sha: Bytes -> string, files: map<string, FileNode>, saved: seq<Json>,
                         skipped: seq<Json>, version: int, n: nat, entries: seq<Entry>)
    requires n <= |saved|
  {
    && (forall p :: 0 <= p < |entries| ==>
          && entries[p].index < n
          && Readable(sha, files, saved, skipped, version, entries[p].index)
          && StringMember(saved[entries[p].index], "name") == Some(entries[p].name)
          && entries[p].payload == files[saved[entries[p].index].members["file"].s].content
          && entries[p].root == RootGroup(saved, version, entries[p].index))
    && (forall p, q :: 0 <= p < q < |entries| ==> entries[p].index < entries[q].index)
  }

  lemma ListedNamesDistinct(sha: Bytes -> string, files: map<string, FileNode>, saved: seq<Json>,
                            skipped: seq<Json>, version: int, entries: seq<Entry>, p: nat, q: nat)
    requires Listed(sha, files, saved, skipped, version, |saved|, entries) && p < q < |entries|
    ensures entries[p].name != entries[q].name
  {
    var i, j := entries[p].index, entries[q].index;
    assert i < j && !Repeated(Names(saved), i);
    assert Names(saved)[i] == Some(entries[p].name) && Names(saved)[j] == Some(entries[q].name);
  }

  lemma ListOne(sha: Bytes -> string, files: map<string, FileNode>, saved: seq<Json>,
                skipped: seq<Json>, version: int, n: nat, before: Reading, after: Reading)
    requires n < |saved| && Listed(sha, files, saved, skipped, version, n, before.entries)
    requires after == ReadOne(sha, files, saved, skipped, version, n, before)
    ensures Listed(sha, files, saved, skipped, version, n + 1, after.entries)
  {
  }

  // Also of an incomplete report: what it does list is valid, read back and in manifest
  // order, and a root it reports is the one its entry is entitled to.
  lemma {:induction false} ListedEntries(sha: Bytes -> string, files: map<string, FileNode>, saved: seq<Json>,
                                         skipped: seq<Json>, version: int, n: nat)
    requires n <= |saved|
    ensures Listed(sha, files, saved, skipped, version, n,
                   ReadEntries(sha, files, saved, skipped, version, n).entries)
  {
    if n > 0 {
      ListedEntries(sha, files, saved, skipped, version, n - 1);
      ListOne(sha, files, saved, skipped, version, n - 1,
              ReadEntries(sha, files, saved, skipped, version, n - 1),
              ReadEntries(sha, files, saved, skipped, version, n));
    }
  }
}
