// Two saves in a row: what the second reuses of the first, and an input on which the second
// is published although no startup will load it.
module SnapshotLoss {
  import opened Wrappers
  import opened SnapshotFormat
  import opened SnapshotSave
  import opened SnapshotValidation
  import opened SnapshotRoundTrip
  import SnapshotReuse
  import BlobNames
  import BlobAttribution
  import SnapshotPublication

  // ---------- what the next save reuses ----------

  lemma BlobNameSafe(ordinal: nat, group: nat)
    ensures SafeBasename(BlobNames.BlobName(ordinal, group))
  {
    var first := BlobNames.Numeral(ordinal, BlobNames.Decimal, 6);
    var second := BlobNames.Numeral(group, BlobNames.Hexadecimal, 12);
    BlobNames.NumeralRoundTrip(ordinal, BlobNames.Decimal, 6);
    BlobNames.NumeralRoundTrip(group, BlobNames.Hexadecimal, 12);
    NumeralSafe(first, BlobNames.Decimal);
    NumeralSafe(second, BlobNames.Hexadecimal);
  }

  lemma NumeralSafe(text: string, radix: BlobNames.Radix)
    requires BlobNames.IsNumeral(text, radix)
    ensures '/' !in text && '\\' !in text && '\0' !in text
  {
  }

  // The candidates the next save finds in a snapshot.
  ghost predicate CandidatesOf(s: Saving, candidates: map<string, Prior>) {
    var saved := SavedJson(s.manifest.saved);
    forall name, prior :: SnapshotReuse.Offers(candidates, name, prior)
      <==> SnapshotReuse.IsCandidate(saved, |saved|, name, prior)
  }

  function PriorEntry(item: SavedItem): Prior {
    Prior(item.file, item.bytes, item.sha256)
  }

  lemma SavedIsCandidate(s: Saving, k: nat)
    requires s.Finished() && k < |s.manifest.saved| <= BlobNames.ORDINALS
    ensures var saved, item := SavedJson(s.manifest.saved), s.manifest.saved[k];
            SnapshotReuse.IsCandidate(saved, |saved|, item.name, PriorEntry(item))
  {
    var saved, item := SavedJson(s.manifest.saved), s.manifest.saved[k];
    Unpacked(s, k);
    BlobNameSafe(k, s.groups[k]);
    assert SnapshotReuse.Usable(saved[k]) && SnapshotReuse.PriorOf(saved[k]) == PriorEntry(item);
    forall j | 0 <= j < |saved| && j != k ensures !SnapshotReuse.Named(saved, j, item.name) {
      SavedNamesApart(s, j, k);
      assert Names(saved)[j] == Some(s.manifest.saved[j].name) && Names(saved)[k] == Some(item.name);
    }
    assert SnapshotReuse.OnlyAt(saved, |saved|, k, item.name);
  }

  lemma ItemPrior(item: SavedItem)
    ensures StringMember(ItemJson(item), "name") == Some(item.name)
    ensures SnapshotReuse.Usable(ItemJson(item)) ==> SnapshotReuse.PriorOf(ItemJson(item)) == PriorEntry(item)
  {
  }

  // What is offered for a name is an entry of that name.
  lemma OfferedIsSaved(s: Saving, candidates: map<string, Prior>, name: string, prior: Prior) returns (k: nat)
    requires CandidatesOf(s, candidates) && SnapshotReuse.Offers(candidates, name, prior)
    ensures k < |s.manifest.saved| && s.manifest.saved[k].name == name && PriorEntry(s.manifest.saved[k]) == prior
  {
    var saved := SavedJson(s.manifest.saved);
    assert SnapshotReuse.IsCandidate(saved, |saved|, name, prior);
    k :| k < |saved| && SnapshotReuse.OnlyAt(saved, |saved|, k, name)
         && SnapshotReuse.Usable(saved[k]) && SnapshotReuse.PriorOf(saved[k]) == prior;
    ItemPrior(s.manifest.saved[k]);
    assert SnapshotReuse.Named(saved, k, name);
  }

  // The snapshot has an entry of the visit's name, size and digest.
  ghost predicate Unchanged(s: Saving, k: nat, visit: Visit)
    requires k < |s.manifest.saved| && visit.outcome.Dumped?
  {
    && s.manifest.saved[k].name == visit.name && s.manifest.saved[k].bytes == |visit.outcome.payload|
    && s.manifest.saved[k].sha256 == s.sha(visit.outcome.payload)
  }

  function ReuseAfter(files: map<string, FileNode>, candidates: map<string, Prior>): Reuse {
    Reuse(candidates, files, files.Keys)
  }

  lemma UnchangedReused(s: Saving, candidates: map<string, Prior>, visit: Visit, k: nat)
    requires s.Finished() && k < |s.manifest.saved| <= BlobNames.ORDINALS && CandidatesOf(s, candidates)
    requires visit.outcome.Dumped? && Unchanged(s, k, visit)
    ensures Reuses(s.sha, visit, ReuseAfter(s.files, candidates))
  {
    SavedIsCandidate(s, k);
    assert SnapshotReuse.Offers(candidates, visit.name, PriorEntry(s.manifest.saved[k]));
    assert ReadsBack(s.sha, s.files, s.manifest.saved[k].file, s.manifest.saved[k].bytes, s.manifest.saved[k].sha256)
    by {
      Unpacked(s, k);
    }
  }

  // With all links possible, the next save reuses exactly the blobs of unchanged entries.
  lemma ReusesUnchanged(s: Saving, candidates: map<string, Prior>, visit: Visit)
    requires s.Finished() && |s.manifest.saved| <= BlobNames.ORDINALS && CandidatesOf(s, candidates)
    requires visit.outcome.Dumped?
    ensures Reuses(s.sha, visit, ReuseAfter(s.files, candidates))
            <==> exists k: nat :: k < |s.manifest.saved| && Unchanged(s, k, visit)
  {
    if k: nat :| k < |s.manifest.saved| && Unchanged(s, k, visit) {
      UnchangedReused(s, candidates, visit, k);
    }
    if Reuses(s.sha, visit, ReuseAfter(s.files, candidates)) {
      var k := OfferedIsSaved(s, candidates, visit.name, candidates[visit.name]);
      assert Unchanged(s, k, visit);
    }
  }

  // ---------- thirty equal blobs ----------

  const EQUAL_BYTES := 559_240

  function Upto(n: nat): (r: seq<nat>)
    ensures |r| == n && forall i :: 0 <= i < n ==> r[i] == i
  {
    seq(n, i requires 0 <= i < n => i)
  }

  // Distinct objects of one size, under names of increasing length.
  ghost predicate EqualVisits(visits: seq<Visit>, payload: Bytes) {
    && |visits| <= 30 && |payload| == EQUAL_BYTES
    && forall i: nat :: i < |visits| ==>
         && |visits[i].name| == i + 1 && visits[i].name[0] == 'a' && visits[i].value == i
         && !visits[i].live && visits[i].outcome == Dumped(payload)
  }

  lemma {:induction false} EqualTally(visits: seq<Visit>, payload: Bytes, n: nat)
    requires n <= |visits| && EqualVisits(visits, payload)
    ensures TallyOf(visits, {}, n) == Tally(Upto(n), [], n * EQUAL_BYTES)
  {
    if n > 0 {
      EqualTally(visits, payload, n - 1);
      assert Visible(visits[n - 1].name, {});
      assert Upto(n) == Upto(n - 1) + [n - 1];
    } else {
      assert Upto(0) == [];
    }
  }

  lemma EqualDistinct(visits: seq<Visit>, payload: Bytes)
    requires EqualVisits(visits, payload)
    ensures DistinctVisits(visits)
  {
    forall i, j | 0 <= i < j < |visits| ensures visits[i].name != visits[j].name {
      assert |visits[i].name| < |visits[j].name|;
    }
  }

  // A save of such visits, of which the first reused entries were there before.
  ghost predicate EqualSaving(s: Saving, payload: Bytes, reused: nat) {
    && s.Finished() && s.Counted() && s.protectedNames == {} && EqualVisits(s.visits, payload)
    && forall i: nat :: i < |s.visits| ==> (Reuses(s.sha, s.visits[i], s.reuse) <==> i < reused)
  }

  lemma FirstPicked(sizes: seq<nat>, pick: seq<bool>, reused: nat)
    requires |pick| == |sizes| && reused <= |pick|
    requires forall k :: 0 <= k < |pick| ==> pick[k] == (k < reused) && sizes[k] == EQUAL_BYTES
    ensures BlobAttribution.Marked(pick) == reused && BlobAttribution.Held(sizes, pick) == EQUAL_BYTES * reused
  {
    assert pick == seq(|pick|, i => i < reused);
    BlobAttribution.MarkedPrefix(|pick|, reused);
    BlobAttribution.EqualBlobs(sizes, pick, EQUAL_BYTES);
  }

  lemma EqualSizes(s: Saving, payload: Bytes, reused: nat)
    requires EqualSaving(s, payload, reused)
    ensures s.Admitted() == Upto(|s.visits|) && |s.manifest.saved| == |s.Sizes()| == |s.visits|
    ensures forall k :: 0 <= k < |s.Sizes()| ==> s.Sizes()[k] == EQUAL_BYTES
  {
    EqualTally(s.visits, payload, |s.visits|);
    SizesTotal(s);
  }

  lemma EqualPick(s: Saving, payload: Bytes, reused: nat)
    requires EqualSaving(s, payload, reused) && reused <= |s.visits|
    ensures |s.manifest.saved| == |s.Sizes()| == |s.Pick()| == |s.visits|
    ensures BlobAttribution.Marked(s.Pick()) == reused
    ensures BlobAttribution.Held(s.Sizes(), s.Pick()) == EQUAL_BYTES * reused
  {
    EqualSizes(s, payload, reused);
    forall k | 0 <= k < |s.visits| ensures s.Pick()[k] == (k < reused) {
      assert s.Admitted()[k] == k;
    }
    FirstPicked(s.Sizes(), s.Pick(), reused);
  }

  // Nothing reused: the snapshot validates if its manifest fits.
  lemma FreshAccepted(s: Saving, payload: Bytes, size: nat)
    requires EqualSaving(s, payload, 0) && s.Encoded(size)
    ensures ReportOf(s.sha, Some(s.Directory(size))).complete <==> size <= MANIFEST_LIMIT
  {
    EqualPick(s, payload, 0);
    if size <= MANIFEST_LIMIT { ReuseDecidesValidity(s, size); }
  }

  lemma HalfExceeds(sizes: seq<nat>)
    requires |sizes| == 30
    ensures BlobAttribution.GuardExceeded(sizes, 15, EQUAL_BYTES * 15)
  {
  }

  // Half of thirty reused: it does not.
  lemma HalfReusedRefused(s: Saving, payload: Bytes, size: nat)
    requires EqualSaving(s, payload, 15) && |s.visits| == 30 && s.Encoded(size)
    ensures !ReportOf(s.sha, Some(s.Directory(size))).complete
  {
    if size <= MANIFEST_LIMIT {
      assert ReuseRefused(s.Sizes(), s.Pick()) by {
        EqualPick(s, payload, 15);
        HalfExceeds(s.Sizes());
      }
      ReuseDecidesValidity(s, size);
    }
  }

  // The second of two saves, in a namespace that has grown from fifteen to thirty values.
  ghost predicate Grown(first: Saving, second: Saving, payload: Bytes, candidates: map<string, Prior>) {
    && EqualVisits(second.visits, payload) && |second.visits| == 30 && first.visits == second.visits[..15]
    && first.sha == second.sha && first.protectedNames == {}
    && second.reuse == ReuseAfter(first.files, candidates) && CandidatesOf(first, candidates)
  }

  lemma FirstEntry(first: Saving, second: Saving, payload: Bytes, candidates: map<string, Prior>, k: nat, i: nat)
    requires Grown(first, second, payload, candidates) && first.Finished() && i < 30 && k < 15
    ensures |first.manifest.saved| == 15 && (Unchanged(first, k, second.visits[i]) <==> k == i)
  {
    EqualTally(first.visits, payload, 15);
    assert |first.Admitted()| == 15 && first.Admitted()[k] == k;
    assert |first.manifest.saved| == 15;
    Unpacked(first, k);
    assert first.visits[k] == second.visits[k];
    assert k != i ==> |second.visits[k].name| != |second.visits[i].name|;
  }

  lemma SecondReusesHalf(first: Saving, second: Saving, payload: Bytes, candidates: map<string, Prior>, i: nat)
    requires Grown(first, second, payload, candidates) && first.Finished() && i < 30
    ensures Reuses(second.sha, second.visits[i], second.reuse) <==> i < 15
  {
    FirstEntry(first, second, payload, candidates, 0, i);
    forall k: nat | k < 15 ensures Unchanged(first, k, second.visits[i]) <==> k == i {
      FirstEntry(first, second, payload, candidates, k, i);
    }
    ReusesUnchanged(first, candidates, second.visits[i]);
    if i < 15 { assert Unchanged(first, i, second.visits[i]); }
  }

  // Two finished saves of that namespace, the first into an empty place, with manifests of
  // these sizes.
  ghost predicate SavedTwice(first: Saving, second: Saving, payload: Bytes, candidates: map<string, Prior>,
                             size: nat, size': nat) {
    && Grown(first, second, payload, candidates) && second.protectedNames == {} && first.reuse.prior == map[]
    && first.Finished() && first.Counted() && first.Encoded(size) && size <= MANIFEST_LIMIT
    && second.Finished() && second.Counted() && second.Encoded(size')
  }

  // The first validates and the second does not.
  lemma GrownRefused(first: Saving, second: Saving, payload: Bytes, candidates: map<string, Prior>,
                     size: nat, size': nat)
    requires SavedTwice(first, second, payload, candidates, size, size')
    ensures EqualSaving(first, payload, 0) && EqualSaving(second, payload, 15)
    ensures ReportOf(first.sha, Some(first.Directory(size))).complete
    ensures !ReportOf(second.sha, Some(second.Directory(size'))).complete
  {
    forall i: nat | i < 30 ensures Reuses(second.sha, second.visits[i], second.reuse) <==> i < 15 {
      SecondReusesHalf(first, second, payload, candidates, i);
    }
    assert EqualVisits(first.visits, payload);
    FreshAccepted(first, payload, size);
    HalfReusedRefused(second, payload, size');
  }

  // Startup would load the first save when it has returned, and nothing when the second has.
  ghost predicate Lost(target: string, run: seq<SnapshotPublication.State>, i: nat) {
    && SnapshotPublication.IsRun(target, run) && i < |run| - 1
    && run[i].returned == 1 && SnapshotPublication.StartupLoads(target, run[i].disk) == Some(1)
    && run[|run| - 1].returned == 2 && SnapshotPublication.StartupLoads(target, run[|run| - 1].disk) == None
  }

  // Published one after the other, with the blobs and the verdicts they have, the second of
  // these saves takes away what the first had made safe.
  lemma RefusedSnapshotLost(target: string, first: Saving, second: Saving, payload: Bytes,
                            candidates: map<string, Prior>, size: nat, size': nat)
    requires SavedTwice(first, second, payload, candidates, size, size')
    ensures |first.manifest.saved| == 15 && |second.manifest.saved| == 30
    ensures exists run: seq<SnapshotPublication.State>, i: nat ::
              && SnapshotPublication.TwoSaves(target, run, i,
                   |first.manifest.saved|, ReportOf(first.sha, Some(first.Directory(size))).complete,
                   |second.manifest.saved|, ReportOf(second.sha, Some(second.Directory(size'))).complete)
              && Lost(target, run, i)
  {
    GrownRefused(first, second, payload, candidates, size, size');
    EqualPick(first, payload, 0);
    EqualPick(second, payload, 15);
    SnapshotPublication.TwoSavesReturn(target, 15, true, 30, false);
    var run: seq<SnapshotPublication.State>, i: nat :|
      SnapshotPublication.TwoSaves(target, run, i, 15, true, 30, false);
    SnapshotPublication.RestedLoads(target, 1, 15, true);
    SnapshotPublication.RestedLoads(target, 2, 30, false);
    assert Lost(target, run, i);
  }

  function DirectoryOf(manifest: Manifest, files: map<string, FileNode>, size: nat): SnapshotDirectory {
    SnapshotDirectory(Parsed(size, ManifestJson(manifest)), files)
  }

  // A save into an empty set of protected names, and the validation of what it wrote.
  method SaveAndValidate(sha: Bytes -> string, pieces: Bytes -> seq<Bytes>, encoded: Manifest -> nat,
                         visits: seq<Visit>, reuse: Reuse)
    returns (manifest: Manifest, files: map<string, FileNode>, complete: bool, ghost s: Saving)
    requires Divides(pieces) && (forall content :: IsDigest(sha(content))) && CountsDigests(encoded)
    requires DistinctVisits(visits)
    ensures s.Finished() && s.Counted() && s.sha == sha && s.visits == visits && s.protectedNames == {}
    ensures s.reuse == reuse && s.manifest == manifest && s.files == files && s.Encoded(encoded(manifest))
    ensures complete == ReportOf(sha, Some(DirectoryOf(manifest, files, encoded(manifest)))).complete
  {
    var result;
    ghost var groups, saved', skips;
    result, groups, saved', skips := SaveSnapshot(sha, pieces, visits, {}, None, reuse, 0.0);
    manifest, files := result.value.0, result.value.1;
    s := Saving(sha, visits, {}, reuse, groups, manifest, files);
    assert s.Encoded(encoded(manifest)) by {
      forall k | 0 <= k < |manifest.saved| ensures IsDigest(manifest.saved[k].sha256) { Unpacked(s, k); }
    }
    var report := ValidateSnapshotDirectory(sha, Some(DirectoryOf(manifest, files, encoded(manifest))));
    complete := report.complete;
  }

  // The candidates of a snapshot just saved, if its manifest can be read.
  method NextReuse(ghost s: Saving, manifest: Manifest, files: map<string, FileNode>, size: nat) returns (reuse: Reuse)
    requires s.Finished() && s.manifest == manifest && s.files == files
    ensures size <= MANIFEST_LIMIT ==> CandidatesOf(s, reuse.prior)
    ensures reuse == ReuseAfter(files, reuse.prior)
  {
    var j := ManifestJson(manifest);
    ManifestShape(manifest);
    var candidates := SnapshotReuse.ReuseCandidates(if size <= MANIFEST_LIMIT then Some(j) else None);
    reuse := ReuseAfter(files, candidates);
  }

  method EqualNamespace() returns (visits: seq<Visit>, payload: Bytes)
    ensures EqualVisits(visits, payload) && |visits| == 30 && DistinctVisits(visits)
    ensures EqualVisits(visits[..15], payload) && DistinctVisits(visits[..15])
  {
    payload := seq(EQUAL_BYTES, _ => 0);
    visits := seq(30, i requires 0 <= i < 30 => Visit(seq(i + 1, _ => 'a'), i, i, false, Dumped(payload)));
    EqualDistinct(visits, payload);
    EqualDistinct(visits[..15], payload);
  }

  // Two saves of a concrete namespace, run by the saver, the second one reusing what it finds
  // of the first: if the first manifest fits, the first snapshot validates and the second,
  // which has reused half of its blobs, does not.
  method FifteenThenThirty(sha: Bytes -> string, pieces: Bytes -> seq<Bytes>, encoded: Manifest -> nat)
    returns (first: Manifest, firstFiles: map<string, FileNode>, second: Manifest, secondFiles: map<string, FileNode>,
             ghost saving: Saving, ghost again: Saving, ghost payload: Bytes, ghost candidates: map<string, Prior>)
    requires Divides(pieces) && (forall content :: IsDigest(sha(content))) && CountsDigests(encoded)
    ensures |first.saved| == 15 && |second.saved| == 30
    ensures encoded(first) <= MANIFEST_LIMIT ==>
              && ReportOf(sha, Some(DirectoryOf(first, firstFiles, encoded(first)))).complete
              && !ReportOf(sha, Some(DirectoryOf(second, secondFiles, encoded(second)))).complete
              && first.stats.reusedBlobs == 0 && second.stats.reusedBlobs == 15
    ensures saving.manifest == first && again.manifest == second
    ensures encoded(first) <= MANIFEST_LIMIT ==>
              SavedTwice(saving, again, payload, candidates, encoded(first), encoded(second))
  {
    var visits, content := EqualNamespace();
    payload := content;
    var complete, complete';
    first, firstFiles, complete, saving :=
      SaveAndValidate(sha, pieces, encoded, visits[..15], Reuse(map[], map[], {}));
    var reuse := NextReuse(saving, first, firstFiles, encoded(first));
    candidates := reuse.prior;
    second, secondFiles, complete', again := SaveAndValidate(sha, pieces, encoded, visits, reuse);
    BothSaved(saving, again, payload);
    if encoded(first) <= MANIFEST_LIMIT {
      assert SavedTwice(saving, again, payload, candidates, encoded(first), encoded(second));
      VerdictsOfBoth(saving, again, payload, candidates, encoded(first), encoded(second));
    }
  }

  lemma VerdictsOfBoth(first: Saving, second: Saving, payload: Bytes, candidates: map<string, Prior>,
                       size: nat, size': nat)
    requires SavedTwice(first, second, payload, candidates, size, size')
    ensures ReportOf(first.sha, Some(DirectoryOf(first.manifest, first.files, size))).complete
    ensures !ReportOf(second.sha, Some(DirectoryOf(second.manifest, second.files, size'))).complete
    ensures first.manifest.stats.reusedBlobs == 0 && second.manifest.stats.reusedBlobs == 15
  {
    GrownRefused(first, second, payload, candidates, size, size');
    EqualPick(first, payload, 0);
    EqualPick(second, payload, 15);
  }

  lemma BothSaved(first: Saving, second: Saving, payload: Bytes)
    requires first.Finished() && first.protectedNames == {} && EqualVisits(first.visits, payload)
    requires second.Finished() && second.protectedNames == {} && EqualVisits(second.visits, payload)
    ensures |first.manifest.saved| == |first.visits| && |second.manifest.saved| == |second.visits|
  {
    EqualTally(first.visits, payload, |first.visits|);
    EqualTally(second.visits, payload, |second.visits|);
  }
}
