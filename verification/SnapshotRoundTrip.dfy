// The saver, the validator and the restorer agree: what was saved validates, and what is
// restored has the aliasing that was saved.
module SnapshotRoundTrip {
  import opened Wrappers
  import opened SnapshotFormat
  import opened SnapshotSave
  import opened SnapshotValidation
  import opened SnapshotRestore
  import opened BlobNames
  import BlobAttribution

  // ---------- the manifest as JSON ----------

  function ItemJson(item: SavedItem): Json {
    JObject(map["name" := JString(item.name), "file" := JString(item.file),
                "bytes" := JInt(item.bytes), "sha256" := JString(item.sha256)])
  }

  function SkipJson(item: SkippedItem): Json {
    JObject(map["name" := JString(item.name), "reason" := JString(item.reason)])
  }

  function SavedJson(saved: seq<SavedItem>): (r: seq<Json>)
    ensures |r| == |saved| && forall k :: 0 <= k < |saved| ==> r[k] == ItemJson(saved[k])
  {
    seq(|saved|, k requires 0 <= k < |saved| => ItemJson(saved[k]))
  }

  function SkippedJson(skipped: seq<SkippedItem>): (r: seq<Json>)
    ensures |r| == |skipped| && forall k :: 0 <= k < |skipped| ==> r[k] == SkipJson(skipped[k])
  {
    seq(|skipped|, k requires 0 <= k < |skipped| => SkipJson(skipped[k]))
  }

  function StatsJson(stats: Stats): Json {
    JObject(map["attemptedVariables" := JInt(stats.attemptedVariables),
                "serializedVariables" := JInt(stats.serializedVariables),
                "boundedVariables" := JInt(stats.boundedVariables),
                "reusedBlobs" := JInt(stats.reusedBlobs),
                "reusedBytes" := JInt(stats.reusedBytes),
                "writtenBlobs" := JInt(stats.writtenBlobs),
                "writtenBytes" := JInt(stats.writtenBytes),
                "durationMs" := JFloat(true, stats.durationMs)])
  }

  function ManifestJson(m: Manifest): Json {
    var base := map["version" := JInt(SNAPSHOT_VERSION), "saved" := JArray(SavedJson(m.saved)),
                    "skipped" := JArray(SkippedJson(m.skipped)), "totalBytes" := JInt(m.totalBytes),
                    "stats" := StatsJson(m.stats)];
    JObject(if m.checkpoint.Some? then base["namespaceCheckpoint" := m.checkpoint.value] else base)
  }

  // ---------- names ----------

  ghost predicate DistinctVisits(visits: seq<Visit>) {
    forall i, j :: 0 <= i < j < |visits| ==> visits[i].name != visits[j].name
  }

  ghost predicate Visited(visits: seq<Visit>, n: nat, name: string)
    requires n <= |visits|
  {
    exists i :: 0 <= i < n && visits[i].name == name
  }

  // Every name of the first n visits is admitted or skipped at most once.
  ghost predicate NamesSettled(visits: seq<Visit>, t: Tally, n: nat)
    requires n <= |visits|
  {
    && (forall k :: 0 <= k < |t.admitted| ==> t.admitted[k] < n)
    && (forall k :: 0 <= k < |t.skipped| ==> Visited(visits, n, t.skipped[k].name))
    && (forall j, k :: 0 <= j < |t.admitted| && 0 <= k < |t.skipped| ==>
          visits[t.admitted[j]].name != t.skipped[k].name)
    && (forall j, k :: 0 <= j < k < |t.skipped| ==> t.skipped[j].name != t.skipped[k].name)
  }

  lemma VisitedOnce(visits: seq<Visit>, n: nat, name: string)
    requires n < |visits| && DistinctVisits(visits) && Visited(visits, n, name)
    ensures name != visits[n].name && Visited(visits, n + 1, name)
  {
    var i :| 0 <= i < n && visits[i].name == name;
    assert i < n + 1;
  }

  lemma SettleOne(visits: seq<Visit>, protectedNames: set<string>, before: Tally, after: Tally, n: nat)
    requires n < |visits| && DistinctVisits(visits) && NamesSettled(visits, before, n)
    requires after == Admit(visits[n], n, protectedNames, before)
    ensures NamesSettled(visits, after, n + 1)
  {
    forall k | 0 <= k < |before.skipped|
      ensures before.skipped[k].name != visits[n].name && Visited(visits, n + 1, before.skipped[k].name)
    {
      VisitedOnce(visits, n, before.skipped[k].name);
    }
    assert Visited(visits, n + 1, visits[n].name);
    assert |after.skipped| > |before.skipped| ==> after.skipped[|before.skipped|].name == visits[n].name;
  }

  lemma {:induction false} TallyNames(visits: seq<Visit>, protectedNames: set<string>, n: nat)
    requires n <= |visits| && DistinctVisits(visits)
    ensures NamesSettled(visits, TallyOf(visits, protectedNames, n), n)
  {
    if n == 0 {
      assert TallyOf(visits, protectedNames, 0) == Tally([], [], 0);
    } else {
      TallyNames(visits, protectedNames, n - 1);
      SettleOne(visits, protectedNames, TallyOf(visits, protectedNames, n - 1),
                TallyOf(visits, protectedNames, n), n - 1);
    }
  }

  lemma {:induction false} BoundedAgree(skipped: seq<SkippedItem>)
    ensures BoundedCount(SkippedJson(skipped)) == BoundedSkips(skipped)
    ensures forall k :: 0 <= k < |skipped| ==> !Unhashable(SkippedJson(skipped)[k])
  {
    if skipped != [] {
      var rest := skipped[..|skipped| - 1];
      BoundedAgree(rest);
      assert SkippedJson(skipped)[..|rest|] == SkippedJson(rest);
    }
  }

  // ---------- a finished save ----------

  datatype Saving = Saving(sha: Bytes -> string, visits: seq<Visit>, protectedNames: set<string>,
                           reuse: Reuse, groups: seq<nat>, manifest: Manifest, files: map<string, FileNode>) {

    ghost function Admitted(): seq<nat> {
      TallyOf(visits, protectedNames, |visits|).admitted
    }

    ghost function Sizes(): seq<nat>
      requires Finished()
    {
      PayloadSizes(visits, Admitted())
    }

    // Which admitted entries the prior snapshot has a blob for.
    ghost function Pick(): seq<bool>
      requires AllDumped(visits, Admitted())
    {
      ReusePick(sha, visits, Admitted(), reuse)
    }

    // A save that returned, of a namespace whose names are distinct as in any dictionary.
    ghost predicate Finished() {
      && DistinctVisits(visits)
      && Describes(sha, visits, protectedNames, |visits|, groups, manifest, files)
      && (manifest.checkpoint.Some? ==> ValidCheckpoint(manifest.checkpoint.value))
      && (forall content :: IsDigest(sha(content)))
    }

    // Its statistics count exactly the blobs it reused.
    ghost predicate Counted() {
      CountsReuse(sha, visits, Admitted(), reuse, manifest.stats)
    }

    // The manifest file holds a 64-character digest per entry, so it is at least that long.
    ghost predicate Encoded(size: nat) {
      64 * |manifest.saved| <= size
    }

    ghost function Directory(size: nat): SnapshotDirectory {
      SnapshotDirectory(Parsed(size, ManifestJson(manifest)), files)
    }
  }

  lemma ItemJsonFacts(item: SavedItem, ordinal: nat, group: nat)
    requires item.file == BlobName(ordinal, group) && ordinal < ORDINALS && group < GROUPS
    requires item.bytes <= PER_VARIABLE_LIMIT && IsDigest(item.sha256)
    ensures var j := ItemJson(item);
            && CanonicalItem(j) && ValidItem(j, SNAPSHOT_VERSION)
            && StringMember(j, "name") == Some(item.name) && StringMember(j, "file") == Some(item.file)
            && StringMember(j, "sha256") == Some(item.sha256) && j.members["bytes"] == JInt(item.bytes)
            && Numbers(j, SNAPSHOT_VERSION) == Some((ordinal, group))
  {
    BlobNameRoundTrip(ordinal, group);
    assert ItemJson(item).members.Keys == SAVED_KEYS;
  }

  lemma SkipJsonFacts(item: SkippedItem)
    ensures var j := SkipJson(item);
            && j.JObject? && ExactKeys(j.members, {"name", "reason"}, {})
            && StringMember(j, "name") == Some(item.name) && StringMember(j, "reason") == Some(item.reason)
  {
  }

  // What Describes says of one saved item.
  lemma Unpacked(s: Saving, k: nat)
    requires s.Finished() && k < |s.manifest.saved|
    ensures |s.Admitted()| == |s.manifest.saved| == |s.groups|
    ensures s.Admitted()[k] < |s.visits| && s.visits[s.Admitted()[k]].outcome.Dumped?
    ensures s.manifest.saved[k] == ItemFor(s.sha, s.visits[s.Admitted()[k]], k, s.groups[k])
    ensures s.groups[k] <= k && s.groups[s.groups[k]] == s.groups[k]
    ensures s.manifest.saved[k].bytes <= PER_VARIABLE_LIMIT && IsDigest(s.manifest.saved[k].sha256)
    ensures ReadsBack(s.sha, s.files, s.manifest.saved[k].file, s.manifest.saved[k].bytes, s.manifest.saved[k].sha256)
  {
    TallyBounds(s.visits, s.protectedNames, |s.visits|);
  }

  lemma ItemFacts(s: Saving, k: nat)
    requires s.Finished() && k < |s.manifest.saved| <= ORDINALS
    ensures |s.Admitted()| == |s.manifest.saved| == |s.groups| && s.Admitted()[k] < |s.visits|
    ensures var j := ItemJson(s.manifest.saved[k]);
            && CanonicalItem(j) && ValidItem(j, SNAPSHOT_VERSION)
            && j.members["bytes"] == JInt(s.manifest.saved[k].bytes)
            && StringMember(j, "name") == Some(s.visits[s.Admitted()[k]].name)
            && StringMember(j, "file") == Some(BlobName(k, s.groups[k]))
            && Numbers(j, SNAPSHOT_VERSION) == Some((k, s.groups[k]))
  {
    Unpacked(s, k);
    ItemJsonFacts(s.manifest.saved[k], k, s.groups[k]);
  }

  lemma GroupFacts(s: Saving, k: nat)
    requires s.Finished() && k < |s.manifest.saved| <= ORDINALS
    ensures RootGroup(SavedJson(s.manifest.saved), SNAPSHOT_VERSION, k) == Some(s.groups[k])
  {
    ItemFacts(s, k);
    Unpacked(s, k);
    ItemFacts(s, s.groups[k]);
  }

  lemma SavedNamesApart(s: Saving, j: nat, k: nat)
    requires s.Finished() && j < |s.manifest.saved| && k < |s.manifest.saved| <= ORDINALS && j != k
    ensures var saved := SavedJson(s.manifest.saved);
            Names(saved)[j] != Names(saved)[k] && Files(saved, SNAPSHOT_VERSION)[j] != Files(saved, SNAPSHOT_VERSION)[k]
  {
    ItemFacts(s, j);
    ItemFacts(s, k);
    TallyBounds(s.visits, s.protectedNames, |s.visits|);
    if BlobName(j, s.groups[j]) == BlobName(k, s.groups[k]) {
      BlobNamesApart(j, s.groups[j], k, s.groups[k]);
    }
    if j < k { assert s.Admitted()[j] < s.Admitted()[k]; } else { assert s.Admitted()[k] < s.Admitted()[j]; }
  }

  lemma SavedNotSkipped(s: Saving, j: nat, k: nat)
    requires s.Finished() && j < |s.manifest.saved| <= ORDINALS && k < |s.manifest.skipped|
    ensures Names(SavedJson(s.manifest.saved))[j] != Names(SkippedJson(s.manifest.skipped))[k]
  {
    ItemFacts(s, j);
    SkipJsonFacts(s.manifest.skipped[k]);
    TallyNames(s.visits, s.protectedNames, |s.visits|);
    var t := TallyOf(s.visits, s.protectedNames, |s.visits|);
    assert NamesSettled(s.visits, t, |s.visits|) && s.manifest.skipped == t.skipped && s.Admitted() == t.admitted;
    assert s.visits[t.admitted[j]].name != t.skipped[k].name;
  }

  lemma SavedFacts(s: Saving, k: nat)
    requires s.Finished() && k < |s.manifest.saved| <= ORDINALS
    ensures ValidSaved(SavedJson(s.manifest.saved), SkippedJson(s.manifest.skipped), SNAPSHOT_VERSION, k)
  {
    var saved, skipped := SavedJson(s.manifest.saved), SkippedJson(s.manifest.skipped);
    ItemFacts(s, k);
    forall j | 0 <= j < |saved| && j != k
      ensures Names(saved)[j] != Names(saved)[k]
      ensures Files(saved, SNAPSHOT_VERSION)[j] != Files(saved, SNAPSHOT_VERSION)[k]
    {
      SavedNamesApart(s, j, k);
    }
    forall j | 0 <= j < |skipped| ensures Names(skipped)[j] != Names(saved)[k] {
      SavedNotSkipped(s, k, j);
    }
  }

  lemma SkippedFacts(s: Saving, k: nat)
    requires s.Finished() && k < |s.manifest.skipped| && |s.manifest.saved| <= ORDINALS
    ensures ValidSkipped(SavedJson(s.manifest.saved), SkippedJson(s.manifest.skipped), k)
  {
    var saved, skipped := SavedJson(s.manifest.saved), SkippedJson(s.manifest.skipped);
    SkipJsonFacts(s.manifest.skipped[k]);
    TallyNames(s.visits, s.protectedNames, |s.visits|);
    var t := TallyOf(s.visits, s.protectedNames, |s.visits|);
    assert NamesSettled(s.visits, t, |s.visits|) && s.manifest.skipped == t.skipped && s.Admitted() == t.admitted;
    forall j | 0 <= j < |skipped| && j != k ensures Names(skipped)[j] != Names(skipped)[k] {
      SkipJsonFacts(s.manifest.skipped[j]);
      assert t.skipped[j].name != t.skipped[k].name;
    }
    forall j | 0 <= j < |saved| ensures Names(saved)[j] != Names(skipped)[k] {
      SavedNotSkipped(s, j, k);
    }
  }

  lemma NoEarlyProblems(s: Saving)
    requires s.Finished() && |s.manifest.saved| <= ORDINALS
    ensures GroupProblems(SavedJson(s.manifest.saved), SNAPSHOT_VERSION, |s.manifest.saved|) == []
    ensures SkippedProblems(SavedJson(s.manifest.saved), SkippedJson(s.manifest.skipped), |s.manifest.skipped|).0 == []
  {
    var saved, skipped := SavedJson(s.manifest.saved), SkippedJson(s.manifest.skipped);
    forall k | 0 <= k < |saved| ensures !BadGroup(saved, SNAPSHOT_VERSION, k) { GroupFacts(s, k); }
    forall k | 0 <= k < |skipped| ensures ValidSkipped(saved, skipped, k) { SkippedFacts(s, k); }
    OtherErrors(saved, skipped, SNAPSHOT_VERSION, |saved|, |skipped|);
  }

  lemma SumPrefix(sizes: seq<nat>, n: nat)
    requires n < |sizes|
    ensures BlobAttribution.Sum(sizes[..n + 1]) == BlobAttribution.Sum(sizes[..n]) + sizes[n]
    ensures BlobAttribution.Sum(sizes[..n + 1]) <= BlobAttribution.Sum(sizes)
  {
    BlobAttribution.SumSplit(sizes, n + 1);
    assert sizes[..n + 1][..n] == sizes[..n];
  }

  lemma SizesTotal(s: Saving)
    requires s.Finished()
    ensures |s.Sizes()| == |s.manifest.saved|
    ensures BlobAttribution.Sum(s.Sizes()) == s.manifest.totalBytes <= TOTAL_SNAPSHOT_LIMIT
  {
    TallyBounds(s.visits, s.protectedNames, |s.visits|);
    TallyTotal(s.visits, s.protectedNames, |s.visits|);
  }

  lemma PrefixTotal(s: Saving, n: nat)
    requires s.Finished() && n < |s.manifest.saved|
    ensures n < |s.Sizes()| && s.Sizes()[n] == s.manifest.saved[n].bytes
    ensures BlobAttribution.Sum(s.Sizes()[..n + 1]) == BlobAttribution.Sum(s.Sizes()[..n]) + s.Sizes()[n]
    ensures BlobAttribution.Sum(s.Sizes()[..n + 1]) <= TOTAL_SNAPSHOT_LIMIT
  {
    SizesTotal(s);
    Unpacked(s, n);
    SumPrefix(s.Sizes(), n);
  }

  ghost predicate EntryMatches(s: Saving, entry: Entry, k: nat)
    requires s.Finished() && k < |s.Admitted()|
  {
    var visit := s.visits[s.Admitted()[k]];
    && entry.index == k && entry.name == visit.name && entry.root == Some(s.groups[k])
    && |entry.payload| == |visit.outcome.payload| && s.sha(entry.payload) == s.sha(visit.outcome.payload)
  }

  ghost predicate AllRead(s: Saving, read: Reading, n: nat)
    requires s.Finished()
  {
    && n <= |s.Admitted()| == |s.Sizes()|
    && read.errors == [] && |read.entries| == n
    && read.total == BlobAttribution.Sum(s.Sizes()[..n])
    && forall k :: 0 <= k < n ==> EntryMatches(s, read.entries[k], k)
  }

  // What reading the n-th entry of a saved manifest adds.
  lemma OneEntry(s: Saving, n: nat, before: Reading)
    requires s.Finished() && n < |s.manifest.saved| <= ORDINALS
    requires before.total + s.manifest.saved[n].bytes <= TOTAL_SNAPSHOT_LIMIT
    ensures n < |s.Admitted()|
    ensures var after := ReadOne(s.sha, s.files, SavedJson(s.manifest.saved), SkippedJson(s.manifest.skipped),
                                 SNAPSHOT_VERSION, n, before);
            && |after.entries| == |before.entries| + 1 && after.entries[..|before.entries|] == before.entries
            && EntryMatches(s, after.entries[|before.entries|], n)
            && after.errors == before.errors && after.total == before.total + s.manifest.saved[n].bytes
  {
    Unpacked(s, n);
    GroupFacts(s, n);
    SavedFacts(s, n);
    ItemJsonFacts(s.manifest.saved[n], n, s.groups[n]);
  }

  lemma OneRead(s: Saving, n: nat, before: Reading, after: Reading)
    requires s.Finished() && n < |s.manifest.saved| <= ORDINALS && n < |s.Sizes()|
    requires AllRead(s, before, n)
    requires after == ReadOne(s.sha, s.files, SavedJson(s.manifest.saved), SkippedJson(s.manifest.skipped),
                              SNAPSHOT_VERSION, n, before)
    ensures AllRead(s, after, n + 1)
  {
    PrefixTotal(s, n);
    OneEntry(s, n, before);
    assert forall k :: 0 <= k < n ==> after.entries[k] == after.entries[..n][k];
  }

  // Validation reads back every admitted value, in order, with its group.
  lemma {:induction false} ReadsEverything(s: Saving, n: nat)
    requires s.Finished() && n <= |s.manifest.saved| <= ORDINALS
    ensures AllRead(s, ReadEntries(s.sha, s.files, SavedJson(s.manifest.saved),
                                   SkippedJson(s.manifest.skipped), SNAPSHOT_VERSION, n), n)
  {
    if n > 0 {
      ReadsEverything(s, n - 1);
      OneRead(s, n - 1,
              ReadEntries(s.sha, s.files, SavedJson(s.manifest.saved), SkippedJson(s.manifest.skipped),
                          SNAPSHOT_VERSION, n - 1),
              ReadEntries(s.sha, s.files, SavedJson(s.manifest.saved), SkippedJson(s.manifest.skipped),
                          SNAPSHOT_VERSION, n));
    }
  }

  lemma SizesDeclared(s: Saving)
    requires s.Finished() && |s.manifest.saved| <= ORDINALS
    ensures DeclaredSizes(SavedJson(s.manifest.saved)) == Some(s.Sizes())
    ensures BlobAttribution.Sum(s.Sizes()) == s.manifest.totalBytes <= TOTAL_SNAPSHOT_LIMIT
    ensures |s.Sizes()| == |s.manifest.saved|
  {
    var saved := SavedJson(s.manifest.saved);
    forall k | 0 <= k < |saved|
      ensures CanonicalItem(saved[k]) && k < |s.Sizes()| && saved[k].members["bytes"].i == s.Sizes()[k]
    {
      ItemFacts(s, k);
      PrefixTotal(s, k);
    }
    assert DeclaredSizes(saved).value == s.Sizes();
    SizesTotal(s);
  }

  lemma StatsJsonFacts(stats: Stats)
    ensures var m := StatsJson(stats).members;
            && ExactKeys(m, STATS_KEYS, {}) && IntegerStats(m)
            && m["attemptedVariables"].i == stats.attemptedVariables
            && m["serializedVariables"].i == stats.serializedVariables
            && m["boundedVariables"].i == stats.boundedVariables
            && m["reusedBlobs"].i == stats.reusedBlobs && m["reusedBytes"].i == stats.reusedBytes
            && m["writtenBlobs"].i == stats.writtenBlobs && m["writtenBytes"].i == stats.writtenBytes
            && m["durationMs"] == JFloat(true, stats.durationMs)
  {
    assert StatsJson(stats).members.Keys == STATS_KEYS;
  }

  lemma StatsVerdict(sizes: seq<nat>, m: Manifest)
    requires StatsMatch(sizes, m) && |sizes| == |m.saved| && BlobAttribution.Sum(sizes) == m.totalBytes
    ensures StatsProblem(StatsJson(m.stats), Some(sizes), SkippedJson(m.skipped)).None?
            <==> !BlobAttribution.GuardExceeded(sizes, m.stats.reusedBlobs, m.stats.reusedBytes)
  {
    BoundedAgree(m.skipped);
    StatsJsonFacts(m.stats);
  }

  lemma ManifestShape(m: Manifest)
    requires m.checkpoint.Some? ==> ValidCheckpoint(m.checkpoint.value)
    ensures var j := ManifestJson(m);
            && WellShaped(j) && Version(j) == SNAPSHOT_VERSION
            && Saved(j) == SavedJson(m.saved) && Skipped(j) == SkippedJson(m.skipped)
            && "totalBytes" in j.members && j.members["totalBytes"] == JInt(m.totalBytes)
            && "stats" in j.members && j.members["stats"] == StatsJson(m.stats)
  {
    var members := ManifestJson(m).members;
    assert {"version", "saved"} <= members.Keys;
    assert members.Keys <= {"version", "saved", "skipped", "totalBytes", "stats", "namespaceCheckpoint"};
  }

  lemma ManifestVerdict(s: Saving)
    requires s.Finished() && |s.manifest.saved| <= ORDINALS
    ensures var j := ManifestJson(s.manifest);
            && WellShaped(j) && Version(j) == SNAPSHOT_VERSION
            && Saved(j) == SavedJson(s.manifest.saved) && Skipped(j) == SkippedJson(s.manifest.skipped)
            && (ManifestProblem(j).None?
                <==> !BlobAttribution.GuardExceeded(s.Sizes(), s.manifest.stats.reusedBlobs,
                                                    s.manifest.stats.reusedBytes))
  {
    ManifestShape(s.manifest);
    SizesDeclared(s);
    StatsVerdict(s.Sizes(), s.manifest);
  }

  lemma EntriesComplete(s: Saving)
    requires s.Finished() && |s.manifest.saved| <= ORDINALS
    requires var j := ManifestJson(s.manifest);
             && WellShaped(j) && Version(j) == SNAPSHOT_VERSION
             && Saved(j) == SavedJson(s.manifest.saved) && Skipped(j) == SkippedJson(s.manifest.skipped)
    ensures var report := EntriesReport(s.sha, s.files, ManifestJson(s.manifest));
            && report.complete && |report.entries| == |s.Admitted()|
            && forall k :: 0 <= k < |report.entries| ==> EntryMatches(s, report.entries[k], k)
  {
    NoEarlyProblems(s);
    ReadsEverything(s, |s.manifest.saved|);
    assert |s.Admitted()| == |s.manifest.saved|;
  }

  // A snapshot that was just saved validates completely, whatever was serialised, skipped
  // or reused, exactly when the reuse statistics stay within the attribution guard.
  lemma SavedSnapshotValidates(s: Saving, size: nat)
    requires s.Finished() && s.Encoded(size) && size <= MANIFEST_LIMIT
    ensures var report := ReportOf(s.sha, Some(s.Directory(size)));
            && (report.complete
                <==> !BlobAttribution.GuardExceeded(s.Sizes(), s.manifest.stats.reusedBlobs,
                                                    s.manifest.stats.reusedBytes))
            && (report.complete ==>
                  && |report.entries| == |s.Admitted()|
                  && forall k :: 0 <= k < |report.entries| ==> EntryMatches(s, report.entries[k], k))
  {
    assert |s.manifest.saved| <= ORDINALS;
    ManifestVerdict(s);
    EntriesComplete(s);
  }

  // The guard refuses the number and the bytes of the entries reused.
  ghost predicate ReuseRefused(sizes: seq<nat>, pick: seq<bool>)
    requires |pick| == |sizes|
  {
    BlobAttribution.GuardExceeded(sizes, BlobAttribution.Marked(pick), BlobAttribution.Held(sizes, pick))
  }

  // So whether a save will validate can be told before it, from what it may reuse.
  lemma ReuseDecidesValidity(s: Saving, size: nat)
    requires s.Finished() && s.Counted() && s.Encoded(size) && size <= MANIFEST_LIMIT
    ensures |s.Pick()| == |s.Sizes()|
    ensures ReportOf(s.sha, Some(s.Directory(size))).complete <==> !ReuseRefused(s.Sizes(), s.Pick())
  {
    SavedSnapshotValidates(s, size);
  }

  // With no blob or every blob reused a snapshot is always within the guard.
  lemma UnmixedReuseValidates(s: Saving, size: nat)
    requires s.Finished() && s.Counted() && s.Encoded(size) && size <= MANIFEST_LIMIT
    requires forall j, k :: 0 <= j < |s.Pick()| && 0 <= k < |s.Pick()| ==> s.Pick()[j] == s.Pick()[k]
    ensures ReportOf(s.sha, Some(s.Directory(size))).complete
  {
    ReuseDecidesValidity(s, size);
    BlobAttribution.MarkedAlike(s.Pick());
  }

  // The same told from the statistics.
  lemma UnmixedCountsValidate(s: Saving, size: nat)
    requires s.Finished() && s.Encoded(size) && size <= MANIFEST_LIMIT
    requires s.manifest.stats.reusedBlobs == 0 || s.manifest.stats.writtenBlobs == 0
    ensures ReportOf(s.sha, Some(s.Directory(size))).complete
  {
    SavedSnapshotValidates(s, size);
  }

  // Saving and restoring preserves top-level aliasing exactly: two admitted names are bound
  // to one decoded object if and only if their values were one object when visited.
  lemma AliasingPreserved(s: Saving, size: nat, before: Namespace, after: Namespace, restored: seq<string>,
                          j: nat, k: nat)
    requires s.Finished() && s.Encoded(size) && ReportOf(s.sha, Some(s.Directory(size))).complete
    requires FullGroups(s.visits, s.Admitted(), s.groups)
    requires var report := ReportOf(s.sha, Some(s.Directory(size)));
             RestoredPrefix(Task(report.entries, s.protectedNames, p => true), |report.entries|,
                            before, after, restored)
    requires j <= k < |s.Admitted()|
    ensures var visit, other := s.visits[s.Admitted()[j]], s.visits[s.Admitted()[k]];
            && visit.name in after && other.name in after
            && (after[visit.name] == after[other.name] <==> visit.value == other.value)
  {
    var report := ReportOf(s.sha, Some(s.Directory(size)));
    SavedSnapshotValidates(s, size);
    var t := Task(report.entries, s.protectedNames, p => true);
    SourceIsFirst(s, size, t, j);
    SourceIsFirst(s, size, t, k);
    assert Bound(t, j, after, restored) && Bound(t, k, after, restored);
    GroupsAreValues(s, j, k);
  }

  lemma GroupsAreValues(s: Saving, j: nat, k: nat)
    requires s.Finished() && FullGroups(s.visits, s.Admitted(), s.groups) && j <= k < |s.Admitted()|
    ensures s.groups[j] == s.groups[k]
            <==> s.visits[s.Admitted()[j]].value == s.visits[s.Admitted()[k]].value
  {
  }

  // With nothing lost, an entry is restored from the first member of its group.
  lemma FirstOfGroup(t: Task, groups: seq<nat>, k: nat)
    requires |groups| == |t.entries| && k < |groups|
    requires forall i :: 0 <= i < |groups| ==>
               groups[i] <= i && t.entries[i].root == Some(groups[i]) && t.Eligible(i) && t.loads(i)
    requires groups[groups[k]] == groups[k]
    ensures t.Source(k) == Some(groups[k])
  {
    EarliestMeaning(t, k, k + 1);
    assert t.Candidate(groups[k], k);
    forall q | 0 <= q < groups[k] ensures !t.Candidate(q, k) {
      assert t.entries[q].root == Some(groups[q]);
    }
  }

  lemma EntryEligible(s: Saving, entry: Entry, k: nat)
    requires s.Finished() && k < |s.Admitted()| && EntryMatches(s, entry, k)
    ensures SnapshotSave.Visible(entry.name, s.protectedNames) && entry.root == Some(s.groups[k]) && s.groups[k] <= k
  {
    Unpacked(s, k);
    TallyBounds(s.visits, s.protectedNames, |s.visits|);
  }

  lemma SourceIsFirst(s: Saving, size: nat, t: Task, k: nat)
    requires s.Finished() && s.Encoded(size) && size <= MANIFEST_LIMIT
    requires ReportOf(s.sha, Some(s.Directory(size))).complete
    requires t == Task(ReportOf(s.sha, Some(s.Directory(size))).entries, s.protectedNames, t.loads)
    requires forall p :: t.loads(p)
    requires k < |s.Admitted()| == |t.entries|
    ensures t.Source(k) == Some(s.groups[k])
  {
    SavedSnapshotValidates(s, size);
    forall i | 0 <= i < |t.entries|
      ensures s.groups[i] <= i && t.entries[i].root == Some(s.groups[i]) && t.Eligible(i)
    {
      EntryEligible(s, t.entries[i], i);
    }
    Unpacked(s, k);
    FirstOfGroup(t, s.groups, k);
  }

  // ---------- save, validate and restore, end to end ----------

  lemma CheckpointKept(s: Saving, size: nat)
    requires s.Finished() && s.Encoded(size) && ReportOf(s.sha, Some(s.Directory(size))).complete
    ensures CheckpointOf(ReportOf(s.sha, Some(s.Directory(size)))) == s.manifest.checkpoint
  {
    assert ReportOf(s.sha, Some(s.Directory(size))).manifest == Some(ManifestJson(s.manifest));
  }

  // Which names a restore of the whole snapshot leaves alone.
  lemma OthersUntouched(t: Task, before: Namespace, after: Namespace, restored: seq<string>, name: string)
    requires RestoredPrefix(t, |t.entries|, before, after, restored)
    requires forall p :: 0 <= p < |t.entries| ==> t.entries[p].name != name
    ensures name in after <==> name in before
    ensures name in before ==> after[name] == before[name]
  {
    assert name in restored ==> RestoredBy(t, |t.entries|, name);
  }

  // The namespace after a restore: an admitted member is bound, two of them to one object
  // if and only if they were one object when visited, and nothing else is changed.
  ghost predicate Recreated(visits: seq<Visit>, admitted: seq<nat>, before: Namespace, after: Namespace) {
    && (forall i :: i in admitted ==> i < |visits|)
    && (forall i, j :: i in admitted && j in admitted ==>
          && visits[i].name in after && visits[j].name in after
          && (after[visits[i].name] == after[visits[j].name] <==> visits[i].value == visits[j].value))
    && (forall name :: (forall i :: i in admitted ==> visits[i].name != name) ==>
          (name in after <==> name in before) && (name in before ==> after[name] == before[name]))
  }

  lemma RestoreRecreates(s: Saving, size: nat, before: Namespace, after: Namespace, restored: seq<string>)
    requires s.Finished() && s.Encoded(size) && ReportOf(s.sha, Some(s.Directory(size))).complete
    requires FullGroups(s.visits, s.Admitted(), s.groups)
    requires var report := ReportOf(s.sha, Some(s.Directory(size)));
             RestoredPrefix(Task(report.entries, s.protectedNames, p => true), |report.entries|,
                            before, after, restored)
    ensures Recreated(s.visits, s.Admitted(), before, after)
  {
    var admitted := s.Admitted();
    var report := ReportOf(s.sha, Some(s.Directory(size)));
    var t := Task(report.entries, s.protectedNames, p => true);
    SavedSnapshotValidates(s, size);
    forall i, j | i in admitted && j in admitted
      ensures s.visits[i].name in after && s.visits[j].name in after
      ensures after[s.visits[i].name] == after[s.visits[j].name] <==> s.visits[i].value == s.visits[j].value
    {
      var k: nat :| k < |admitted| && admitted[k] == i;
      var l: nat :| l < |admitted| && admitted[l] == j;
      if k <= l { AliasingPreserved(s, size, before, after, restored, k, l); }
      else { AliasingPreserved(s, size, before, after, restored, l, k); }
    }
    forall name | forall i :: i in admitted ==> s.visits[i].name != name
      ensures (name in after <==> name in before) && (name in before ==> after[name] == before[name])
    {
      forall p | 0 <= p < |t.entries| ensures t.entries[p].name != name {
        assert admitted[p] in admitted && EntryMatches(s, report.entries[p], p);
      }
      OthersUntouched(t, before, after, restored, name);
    }
  }

  // encoded is the length of a manifest's text, which holds all its digests.
  ghost predicate CountsDigests(encoded: Manifest -> nat) {
    forall m: Manifest :: (forall k :: 0 <= k < |m.saved| ==> IsDigest(m.saved[k].sha256)) ==>
      64 * |m.saved| <= encoded(m)
  }

  // A namespace saved, its snapshot validated and restored into a new kernel in which every
  // load succeeds.
  method SaveAndRestore(sha: Bytes -> string, pieces: Bytes -> seq<Bytes>, visits: seq<Visit>,
                        protectedNames: set<string>, checkpoint: Option<Json>, reuse: Reuse, durationMs: real,
                        encoded: Manifest -> nat, before: Namespace)
    returns (saved: Option<Manifest>, complete: bool, after: Namespace, restoredCheckpoint: Option<Json>)
    requires durationMs >= 0.0 && Divides(pieces) && DistinctVisits(visits)
    requires forall content :: IsDigest(sha(content))
    requires CountsDigests(encoded)
    requires KeptAlive(visits, TallyOf(visits, protectedNames, |visits|).admitted)
    ensures saved.None? <==> checkpoint.Some? && !ValidCheckpoint(checkpoint.value)
    ensures saved.None? ==> !complete && after == before
    ensures saved.Some? ==>
              var admitted := TallyOf(visits, protectedNames, |visits|).admitted;
              && AllDumped(visits, admitted)
              && (complete <==>
                    && encoded(saved.value) <= MANIFEST_LIMIT
                    && !ReuseRefused(PayloadSizes(visits, admitted), ReusePick(sha, visits, admitted, reuse)))
              && (complete ==> Recreated(visits, admitted, before, after) && restoredCheckpoint == checkpoint)
  {
    var result;
    ghost var groups, saved', skips;
    result, groups, saved', skips := SaveSnapshot(sha, pieces, visits, protectedNames, checkpoint, reuse, durationMs);
    if result.None? { return None, false, before, None; }
    var (manifest, files) := result.value;
    var size := encoded(manifest);
    ghost var s := Saving(sha, visits, protectedNames, reuse, groups, manifest, files);
    assert s.Encoded(size) by {
      forall k | 0 <= k < |manifest.saved| ensures IsDigest(manifest.saved[k].sha256) { Unpacked(s, k); }
    }
    var report := ValidateSnapshotDirectory(sha, Some(SnapshotDirectory(Parsed(size, ManifestJson(manifest)), files)));
    assert report == ReportOf(sha, Some(s.Directory(size)));
    var restored;
    ReportNamesDistinct(sha, Some(s.Directory(size)), protectedNames, p => true);
    after, restored, restoredCheckpoint := RestoreValidatedSnapshot(report, before, protectedNames, p => true);
    TallyBounds(visits, protectedNames, |visits|);
    if size <= MANIFEST_LIMIT {
      ReuseDecidesValidity(s, size);
      if report.complete {
        RestoreRecreates(s, size, before, after, restored);
        CheckpointKept(s, size);
      }
    }
    return Some(manifest), report.complete, after, restoredCheckpoint;
  }
}
