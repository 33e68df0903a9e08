// Saving a namespace: admission under two size budgets, blob reuse, and the manifest that
// describes the result.
module SnapshotSave {
  import opened Wrappers
  import opened SnapshotFormat
  import opened BlobNames
  import BlobAttribution
  import BoundedSink

  // What serialising a value would do without a size limit: produce a payload, or raise
  // after having written so much.
  datatype Outcome = Dumped(payload: Bytes) | Failed(kind: string, message: string, written: Bytes)

  // One namespace member at the moment it is visited. value is the object's identity and
  // address what id() reports for it, which a dead object may hand on to a later one.
  datatype Visit = Visit(name: string, value: nat, address: nat, live: bool, outcome: Outcome)

  datatype SavedItem = SavedItem(name: string, file: string, bytes: nat, sha256: string)
  datatype SkippedItem = SkippedItem(name: string, reason: string)
  datatype Stats = Stats(attemptedVariables: nat, serializedVariables: nat, boundedVariables: nat,
                         reusedBlobs: nat, reusedBytes: nat, writtenBlobs: nat, writtenBytes: nat,
                         durationMs: real)
  datatype Manifest = Manifest(saved: seq<SavedItem>, skipped: seq<SkippedItem>, totalBytes: nat,
                               stats: Stats, checkpoint: Option<Json>)

  datatype Prior = Prior(file: string, bytes: nat, sha256: string)

  // The prior snapshot's blobs that may be linked, as the saver sees them.
  datatype Reuse = Reuse(prior: map<string, Prior>, target: map<string, FileNode>, linkable: set<string>)

  predicate Visible(name: string, protectedNames: set<string>) {
    name !in protectedNames && !("_" <= name)
  }

  function Min(a: nat, b: nat): nat { if a < b then a else b }

  // ---------- which values are admitted ----------

  datatype Tally = Tally(admitted: seq<nat>, skipped: seq<SkippedItem>, total: nat)

  const LIVE_REASON := "live runtime object"

  function SizeReason(remaining: int): string {
    if remaining < PER_VARIABLE_LIMIT then TOTAL_REASON else PER_VARIABLE_REASON
  }

  function Admit(visit: Visit, index: nat, protectedNames: set<string>, before: Tally): Tally {
    var remaining := TOTAL_SNAPSHOT_LIMIT - before.total;
    if !Visible(visit.name, protectedNames) then before
    else if visit.live then before.(skipped := before.skipped + [SkippedItem(visit.name, LIVE_REASON)])
    else match visit.outcome
      case Failed(kind, message, written) =>
        if |written| > PER_VARIABLE_LIMIT || |written| > remaining
        then before.(skipped := before.skipped + [SkippedItem(visit.name, SizeReason(remaining))])
        else before.(skipped := before.skipped + [SkippedItem(visit.name, kind + ": " + message)])
      case Dumped(payload) =>
        if |payload| > PER_VARIABLE_LIMIT || |payload| > remaining
        then before.(skipped := before.skipped + [SkippedItem(visit.name, SizeReason(remaining))])
        else Tally(before.admitted + [index], before.skipped, before.total + |payload|)
  }

  function TallyOf(visits: seq<Visit>, protectedNames: set<string>, n: nat): Tally
    requires n <= |visits|
  {
    if n == 0 then Tally([], [], 0)
    else Admit(visits[n - 1], n - 1, protectedNames, TallyOf(visits, protectedNames, n - 1))
  }

  lemma {:induction false} TallyBounds(visits: seq<Visit>, protectedNames: set<string>, n: nat)
    requires n <= |visits|
    ensures var t := TallyOf(visits, protectedNames, n);
            && t.total <= TOTAL_SNAPSHOT_LIMIT
            && (forall k :: 0 <= k < |t.admitted| ==>
                  && t.admitted[k] < n && Visible(visits[t.admitted[k]].name, protectedNames)
                  && visits[t.admitted[k]].outcome.Dumped?
                  && |visits[t.admitted[k]].outcome.payload| <= PER_VARIABLE_LIMIT)
            && (forall j, k :: 0 <= j < k < |t.admitted| ==> t.admitted[j] < t.admitted[k])
  {
    if n > 0 {
      TallyBounds(visits, protectedNames, n - 1);
    }
  }

  function PayloadSizes(visits: seq<Visit>, admitted: seq<nat>): (r: seq<nat>)
    requires forall k :: 0 <= k < |admitted| ==> admitted[k] < |visits| && visits[admitted[k]].outcome.Dumped?
    ensures |r| == |admitted|
    ensures forall k :: 0 <= k < |admitted| ==> r[k] == |visits[admitted[k]].outcome.payload|
  {
    seq(|admitted|, k requires 0 <= k < |admitted| => |visits[admitted[k]].outcome.payload|)
  }

  ghost predicate TotalIsSum(visits: seq<Visit>, t: Tally) {
    && (forall k :: 0 <= k < |t.admitted| ==> t.admitted[k] < |visits| && visits[t.admitted[k]].outcome.Dumped?)
    && t.total == BlobAttribution.Sum(PayloadSizes(visits, t.admitted))
  }

  lemma AdmitTotal(visits: seq<Visit>, protectedNames: set<string>, n: nat, before: Tally)
    requires n < |visits| && TotalIsSum(visits, before)
    ensures TotalIsSum(visits, Admit(visits[n], n, protectedNames, before))
  {
    var after := Admit(visits[n], n, protectedNames, before);
    if after.admitted != before.admitted {
      assert after.admitted == before.admitted + [n];
      var sizes := PayloadSizes(visits, after.admitted);
      assert sizes[..|before.admitted|] == PayloadSizes(visits, before.admitted);
      assert sizes[|before.admitted|] == |visits[n].outcome.payload|;
    }
  }

  lemma {:induction false} TallyTotal(visits: seq<Visit>, protectedNames: set<string>, n: nat)
    requires n <= |visits|
    ensures TotalIsSum(visits, TallyOf(visits, protectedNames, n))
  {
    if n > 0 {
      TallyTotal(visits, protectedNames, n - 1);
      AdmitTotal(visits, protectedNames, n - 1, TallyOf(visits, protectedNames, n - 1));
    }
  }

  // ---------- admission, said of the visits themselves ----------

  // What a serialisation writes, whether it ends or raises.
  function Content(visit: Visit): Bytes {
    if visit.outcome.Dumped? then visit.outcome.payload else visit.outcome.written
  }

  ghost predicate Offered(visits: seq<Visit>, protectedNames: set<string>, i: nat)
    requires i < |visits|
  {
    visits[i].name !in protectedNames && !("_" <= visits[i].name)
  }

  // The bytes of the saved visits before the i-th.
  function BytesBefore(visits: seq<Visit>, saved: seq<nat>, i: nat): nat {
    if saved == [] then 0
    else
      var n := |saved| - 1;
      BytesBefore(visits, saved[..n], i)
      + if saved[n] < i && saved[n] < |visits| then |Content(visits[saved[n]])| else 0
  }

  ghost predicate Fits(visits: seq<Visit>, saved: seq<nat>, i: nat)
    requires i < |visits|
  {
    && |Content(visits[i])| <= PER_VARIABLE_LIMIT
    && BytesBefore(visits, saved, i) + |Content(visits[i])| <= TOTAL_SNAPSHOT_LIMIT
  }

  // Among the first n visits exactly these are saved: offered, not live, serialised to the
  // end, and within both limits, the second one together with what was saved before.
  ghost predicate SavedExactly(visits: seq<Visit>, protectedNames: set<string>, n: nat, saved: seq<nat>)
    requires n <= |visits|
  {
    && (forall j, k :: 0 <= j < k < |saved| ==> saved[j] < saved[k])
    && (forall i: nat :: i in saved ==> i < n)
    && forall i: nat :: i < n ==>
         (i in saved <==> && Offered(visits, protectedNames, i) && !visits[i].live
                          && visits[i].outcome.Dumped? && Fits(visits, saved, i))
  }

  // Why an offered visit is skipped.
  ghost predicate RightReason(visits: seq<Visit>, saved: seq<nat>, i: nat, reason: string)
    requires i < |visits|
  {
    && (visits[i].live ==> reason == "live runtime object")
    && (!visits[i].live && !Fits(visits, saved, i) ==>
          reason == if TOTAL_SNAPSHOT_LIMIT - BytesBefore(visits, saved, i) < PER_VARIABLE_LIMIT
                    then "total snapshot size limit" else "per-variable size limit")
    && (!visits[i].live && Fits(visits, saved, i) && visits[i].outcome.Failed? ==>
          reason == visits[i].outcome.kind + ": " + visits[i].outcome.message)
  }

  // The others that are offered are skipped, each once and in order, for the reason they have.
  ghost predicate SkippedExactly(visits: seq<Visit>, protectedNames: set<string>, n: nat, saved: seq<nat>,
                                 skips: seq<nat>, skipped: seq<SkippedItem>)
    requires n <= |visits|
  {
    && |skips| == |skipped|
    && (forall j, k :: 0 <= j < k < |skips| ==> skips[j] < skips[k])
    && (forall i: nat :: i in skips <==> i < n && Offered(visits, protectedNames, i) && i !in saved)
    && forall k :: 0 <= k < |skips| ==>
         && skips[k] < |visits| && skipped[k].name == visits[skips[k]].name
         && RightReason(visits, saved, skips[k], skipped[k].reason)
  }

  // Entry k is that of visit saved[k].
  ghost predicate EntriesOf(sha: Bytes -> string, visits: seq<Visit>, saved: seq<nat>, entries: seq<SavedItem>) {
    && |entries| == |saved|
    && forall k :: 0 <= k < |saved| ==>
         && saved[k] < |visits| && visits[saved[k]].outcome.Dumped?
         && entries[k].name == visits[saved[k]].name
         && entries[k].bytes == |visits[saved[k]].outcome.payload|
         && entries[k].sha256 == sha(visits[saved[k]].outcome.payload)
  }

  lemma {:induction false} BytesBelow(visits: seq<Visit>, saved: seq<nat>, i: nat, j: nat)
    requires forall k :: 0 <= k < |saved| ==> saved[k] < i && saved[k] < j
    ensures BytesBefore(visits, saved, i) == BytesBefore(visits, saved, j)
  {
    if saved != [] { BytesBelow(visits, saved[..|saved| - 1], i, j); }
  }

  lemma BytesAppend(visits: seq<Visit>, saved: seq<nat>, n: nat, i: nat)
    requires i <= n
    ensures BytesBefore(visits, saved + [n], i) == BytesBefore(visits, saved, i)
  {
    assert (saved + [n])[..|saved|] == saved;
  }

  // The running total is what has been saved before the next visit.
  ghost predicate TotalIsBefore(visits: seq<Visit>, t: Tally, n: nat) {
    t.total == BytesBefore(visits, t.admitted, n)
  }

  lemma AdmitOneTotal(visits: seq<Visit>, protectedNames: set<string>, n: nat, before: Tally)
    requires n < |visits| && (forall i: nat :: i in before.admitted ==> i < n) && TotalIsBefore(visits, before, n)
    ensures TotalIsBefore(visits, Admit(visits[n], n, protectedNames, before), n + 1)
  {
    forall k | 0 <= k < |before.admitted| ensures before.admitted[k] < n {
      assert before.admitted[k] in before.admitted;
    }
    BytesBelow(visits, before.admitted, n, n + 1);
    assert (before.admitted + [n])[..|before.admitted|] == before.admitted;
  }

  // What one more saved visit changes for the visits before it: nothing.
  lemma OneMoreSaved(visits: seq<Visit>, saved: seq<nat>, saved': seq<nat>, n: nat)
    requires saved' == saved || saved' == saved + [n]
    ensures forall i: nat :: i <= n ==> BytesBefore(visits, saved', i) == BytesBefore(visits, saved, i)
    ensures forall i: nat :: i < n ==> (i in saved' <==> i in saved)
    ensures forall i: nat :: i <= n && i < |visits| ==> (Fits(visits, saved', i) <==> Fits(visits, saved, i))
  {
    forall i: nat | i <= n ensures BytesBefore(visits, saved', i) == BytesBefore(visits, saved, i) {
      BytesAppend(visits, saved, n, i);
    }
  }

  lemma SavedExtends(visits: seq<Visit>, protectedNames: set<string>, n: nat, saved: seq<nat>, saved': seq<nat>)
    requires n < |visits| && SavedExactly(visits, protectedNames, n, saved)
    requires saved' == if && Offered(visits, protectedNames, n) && !visits[n].live
                          && visits[n].outcome.Dumped? && Fits(visits, saved, n)
                       then saved + [n] else saved
    ensures SavedExactly(visits, protectedNames, n + 1, saved')
  {
    OneMoreSaved(visits, saved, saved', n);
    forall k | 0 <= k < |saved| ensures saved[k] < n { assert saved[k] in saved; }
    forall i: nat | i < n + 1
      ensures i in saved' <==> && Offered(visits, protectedNames, i) && !visits[i].live
                               && visits[i].outcome.Dumped? && Fits(visits, saved', i)
    {
      if i < n { assert i in saved' <==> i in saved; }
    }
  }

  lemma AdmitOneSaved(visits: seq<Visit>, protectedNames: set<string>, n: nat, before: Tally, after: Tally)
    requires n < |visits| && SavedExactly(visits, protectedNames, n, before.admitted)
    requires TotalIsBefore(visits, before, n) && after == Admit(visits[n], n, protectedNames, before)
    ensures SavedExactly(visits, protectedNames, n + 1, after.admitted)
    ensures after.admitted == before.admitted || after.admitted == before.admitted + [n]
  {
    SavedExtends(visits, protectedNames, n, before.admitted, after.admitted);
  }

  // A skipped visit at the end of the list, or none.
  lemma SkipsExtend(visits: seq<Visit>, protectedNames: set<string>, n: nat, saved: seq<nat>, saved': seq<nat>,
                    skips: seq<nat>, skipped: seq<SkippedItem>, item: SkippedItem)
    requires n < |visits| && SkippedExactly(visits, protectedNames, n, saved, skips, skipped)
    requires saved' == saved || saved' == saved + [n]
    requires Offered(visits, protectedNames, n) && n !in saved' ==>
               item.name == visits[n].name && RightReason(visits, saved', n, item.reason)
    ensures var more := Offered(visits, protectedNames, n) && n !in saved';
            SkippedExactly(visits, protectedNames, n + 1, saved', if more then skips + [n] else skips,
                           if more then skipped + [item] else skipped)
  {
    OneMoreSaved(visits, saved, saved', n);
    forall k | 0 <= k < |skips|
      ensures skips[k] < n && RightReason(visits, saved', skips[k], skipped[k].reason)
    {
      assert skips[k] in skips;
      SameReason(visits, saved, saved', skips[k], skipped[k].reason);
    }
    var more := Offered(visits, protectedNames, n) && n !in saved';
    SkipIndexes(visits, protectedNames, n, saved, saved', skips, if more then skips + [n] else skips);
  }

  lemma SkipIndexes(visits: seq<Visit>, protectedNames: set<string>, n: nat, saved: seq<nat>, saved': seq<nat>,
                    skips: seq<nat>, skips': seq<nat>)
    requires n < |visits| && forall i: nat :: i < n ==> (i in saved' <==> i in saved)
    requires forall i: nat :: i in skips <==> i < n && Offered(visits, protectedNames, i) && i !in saved
    requires skips' == if Offered(visits, protectedNames, n) && n !in saved' then skips + [n] else skips
    ensures forall i: nat :: i in skips' <==> i < n + 1 && Offered(visits, protectedNames, i) && i !in saved'
  {
  }

  lemma AdmitOneSkipped(visits: seq<Visit>, protectedNames: set<string>, n: nat, before: Tally, after: Tally,
                        skips: seq<nat>) returns (skips': seq<nat>)
    requires n < |visits| && SavedExactly(visits, protectedNames, n, before.admitted)
    requires TotalIsBefore(visits, before, n) && after == Admit(visits[n], n, protectedNames, before)
    requires SkippedExactly(visits, protectedNames, n, before.admitted, skips, before.skipped)
    ensures SkippedExactly(visits, protectedNames, n + 1, after.admitted, skips', after.skipped)
  {
    AdmitOneSaved(visits, protectedNames, n, before, after);
    var item := SkippedItem("", "");
    if Offered(visits, protectedNames, n) && n !in after.admitted {
      OneMoreSaved(visits, before.admitted, after.admitted, n);
      NewReason(visits, protectedNames, n, before, after);
      item := after.skipped[|before.skipped|];
      assert after.skipped == before.skipped + [item];
      skips' := skips + [n];
    } else {
      NoReason(visits, protectedNames, n, before, after);
      skips' := skips;
    }
    SkipsExtend(visits, protectedNames, n, before.admitted, after.admitted, skips, before.skipped, item);
  }

  lemma NoReason(visits: seq<Visit>, protectedNames: set<string>, n: nat, before: Tally, after: Tally)
    requires n < |visits| && after == Admit(visits[n], n, protectedNames, before)
    requires !Offered(visits, protectedNames, n) || n in after.admitted
    requires forall i: nat :: i in before.admitted ==> i < n
    ensures after.skipped == before.skipped
  {
  }

  lemma SameReason(visits: seq<Visit>, saved: seq<nat>, saved': seq<nat>, i: nat, reason: string)
    requires i < |visits| && RightReason(visits, saved, i, reason)
    requires BytesBefore(visits, saved', i) == BytesBefore(visits, saved, i)
    ensures RightReason(visits, saved', i, reason)
  {
  }

  lemma NewReason(visits: seq<Visit>, protectedNames: set<string>, n: nat, before: Tally, after: Tally)
    requires n < |visits| && TotalIsBefore(visits, before, n) && after == Admit(visits[n], n, protectedNames, before)
    requires BytesBefore(visits, after.admitted, n) == BytesBefore(visits, before.admitted, n)
    requires Offered(visits, protectedNames, n) && n !in after.admitted
    ensures |after.skipped| == |before.skipped| + 1 && after.skipped[..|before.skipped|] == before.skipped
    ensures after.skipped[|before.skipped|].name == visits[n].name
    ensures RightReason(visits, after.admitted, n, after.skipped[|before.skipped|].reason)
  {
    assert after.admitted == before.admitted + [n] ==> n in after.admitted;
  }

  ghost predicate AdmissionRight(visits: seq<Visit>, protectedNames: set<string>, n: nat, t: Tally, skips: seq<nat>)
    requires n <= |visits|
  {
    && TotalIsBefore(visits, t, n) && SavedExactly(visits, protectedNames, n, t.admitted)
    && SkippedExactly(visits, protectedNames, n, t.admitted, skips, t.skipped)
  }

  lemma AdmitOneRight(visits: seq<Visit>, protectedNames: set<string>, n: nat, next: nat, before: Tally,
                      after: Tally, skips: seq<nat>) returns (skips': seq<nat>)
    requires n < |visits| && next == n + 1 && AdmissionRight(visits, protectedNames, n, before, skips)
    requires after == Admit(visits[n], n, protectedNames, before)
    ensures AdmissionRight(visits, protectedNames, next, after, skips')
  {
    AdmitOneTotal(visits, protectedNames, n, before);
    AdmitOneSaved(visits, protectedNames, n, before, after);
    skips' := AdmitOneSkipped(visits, protectedNames, n, before, after, skips);
  }

  lemma NothingAdmitted(visits: seq<Visit>, protectedNames: set<string>)
    ensures AdmissionRight(visits, protectedNames, 0, Tally([], [], 0), [])
  {
  }

  // The tally of a save is exactly what the limits admit, visit by visit.
  lemma {:induction false} TallyExactly(visits: seq<Visit>, protectedNames: set<string>, n: nat, t: Tally)
    returns (skips: seq<nat>)
    requires n <= |visits| && t == TallyOf(visits, protectedNames, n)
    ensures AdmissionRight(visits, protectedNames, n, t, skips)
  {
    if n == 0 {
      skips := [];
      NothingAdmitted(visits, protectedNames);
    } else {
      var before := TallyOf(visits, protectedNames, n - 1);
      var skips0 := TallyExactly(visits, protectedNames, n - 1, before);
      skips := AdmitOneRight(visits, protectedNames, n - 1, n, before, t, skips0);
    }
  }

  // ---------- which values share a root group ----------

  // Every group is a genuine alias of its first member.
  ghost predicate SoundGroups(visits: seq<Visit>, admitted: seq<nat>, groups: seq<nat>) {
    && |groups| == |admitted|
    && (forall k :: 0 <= k < |admitted| ==> admitted[k] < |visits|)
    && forall k :: 0 <= k < |groups| ==>
         && groups[k] <= k && groups[groups[k]] == groups[k]
         && visits[admitted[groups[k]]].value == visits[admitted[k]].value
  }

  // No alias is missed: entries of the same object are in the same group.
  ghost predicate FullGroups(visits: seq<Visit>, admitted: seq<nat>, groups: seq<nat>)
    requires SoundGroups(visits, admitted, groups)
  {
    forall j, k :: 0 <= j <= k < |groups| && visits[admitted[j]].value == visits[admitted[k]].value ==>
      groups[j] == groups[k]
  }

  // The saver holds a reference to every admitted value until it returns, so no later
  // object can be handed that value's address.
  ghost predicate KeptAlive(visits: seq<Visit>, admitted: seq<nat>) {
    forall k, i :: 0 <= k < |admitted| && admitted[k] < i < |visits| ==>
      (visits[admitted[k]].address == visits[i].address <==> visits[admitted[k]].value == visits[i].value)
  }

  // ---------- what a save produces ----------

  function ItemFor(sha: Bytes -> string, visit: Visit, ordinal: nat, group: nat): SavedItem
    requires visit.outcome.Dumped?
  {
    SavedItem(visit.name, BlobName(ordinal, group), |visit.outcome.payload|, sha(visit.outcome.payload))
  }

  predicate IsBoundedReason(reason: string) { reason == PER_VARIABLE_REASON || reason == TOTAL_REASON }

  function BoundedSkips(skipped: seq<SkippedItem>): nat {
    if skipped == [] then 0
    else BoundedSkips(skipped[..|skipped| - 1]) + if IsBoundedReason(skipped[|skipped| - 1].reason) then 1 else 0
  }

  ghost predicate ItemsMatch(sha: Bytes -> string, visits: seq<Visit>, admitted: seq<nat>, groups: seq<nat>,
                             saved: seq<SavedItem>, files: map<string, FileNode>)
    requires SoundGroups(visits, admitted, groups)
  {
    && (forall k :: 0 <= k < |admitted| ==> visits[admitted[k]].outcome.Dumped?)
    && |saved| == |admitted|
    && forall k :: 0 <= k < |admitted| ==>
         && saved[k] == ItemFor(sha, visits[admitted[k]], k, groups[k])
         && ReadsBack(sha, files, saved[k].file, saved[k].bytes, saved[k].sha256)
  }

  ghost predicate StatsMatch(sizes: seq<nat>, manifest: Manifest) {
    var stats := manifest.stats;
    && stats.attemptedVariables == |manifest.saved| + |manifest.skipped|
    && stats.serializedVariables == |manifest.saved|
    && stats.boundedVariables == BoundedSkips(manifest.skipped)
    && stats.reusedBlobs + stats.writtenBlobs == |manifest.saved|
    && stats.reusedBytes + stats.writtenBytes == manifest.totalBytes
    && BlobAttribution.Attributable(sizes, stats.reusedBlobs, stats.reusedBytes)
    && stats.durationMs >= 0.0
  }

  // manifest and files describe a save of the first n visits.
  ghost predicate Describes(sha: Bytes -> string, visits: seq<Visit>, protectedNames: set<string>, n: nat,
                            groups: seq<nat>, manifest: Manifest, files: map<string, FileNode>)
    requires n <= |visits|
  {
    var t := TallyOf(visits, protectedNames, n);
    && SoundGroups(visits, t.admitted, groups)
    && ItemsMatch(sha, visits, t.admitted, groups, manifest.saved, files)
    && manifest.skipped == t.skipped
    && manifest.totalBytes == t.total
    && StatsMatch(PayloadSizes(visits, t.admitted), manifest)
  }

  // ---------- which blobs are reused ----------

  // A blob is reused if the prior snapshot has one of that name, size and digest that can be
  // linked and still reads back so.
  predicate Reuses(sha: Bytes -> string, visit: Visit, reuse: Reuse)
    requires visit.outcome.Dumped?
  {
    var bytes, digest := |visit.outcome.payload|, sha(visit.outcome.payload);
    && visit.name in reuse.prior
    && reuse.prior[visit.name].bytes == bytes && reuse.prior[visit.name].sha256 == digest
    && reuse.prior[visit.name].file in reuse.linkable
    && ReadsBack(sha, reuse.target, reuse.prior[visit.name].file, bytes, digest)
  }

  ghost predicate AllDumped(visits: seq<Visit>, admitted: seq<nat>) {
    forall k :: 0 <= k < |admitted| ==> admitted[k] < |visits| && visits[admitted[k]].outcome.Dumped?
  }

  function ReusePick(sha: Bytes -> string, visits: seq<Visit>, admitted: seq<nat>, reuse: Reuse): (pick: seq<bool>)
    requires AllDumped(visits, admitted)
    ensures |pick| == |admitted|
    ensures forall k :: 0 <= k < |admitted| ==> pick[k] == Reuses(sha, visits[admitted[k]], reuse)
  {
    seq(|admitted|, k requires 0 <= k < |admitted| => Reuses(sha, visits[admitted[k]], reuse))
  }

  // The reuse statistics are the number and the bytes of exactly the entries reused.
  ghost predicate CountsReuse(sha: Bytes -> string, visits: seq<Visit>, admitted: seq<nat>, reuse: Reuse,
                              stats: Stats)
  {
    && AllDumped(visits, admitted)
    && BlobAttribution.Selects(PayloadSizes(visits, admitted), ReusePick(sha, visits, admitted, reuse),
                               stats.reusedBlobs, stats.reusedBytes)
  }

  lemma CountOneMore(sha: Bytes -> string, visits: seq<Visit>, admitted: seq<nat>, reuse: Reuse, manifest: Manifest,
                     n: nat, item: SavedItem)
    requires CountsReuse(sha, visits, admitted, reuse, manifest.stats)
    requires n < |visits| && visits[n].outcome.Dumped? && item.bytes == |visits[n].outcome.payload|
    ensures CountsReuse(sha, visits, admitted + [n], reuse,
                        WithItem(manifest, item, Reuses(sha, visits[n], reuse)).stats)
  {
    var sizes, pick := PayloadSizes(visits, admitted), ReusePick(sha, visits, admitted, reuse);
    var reused := Reuses(sha, visits[n], reuse);
    assert PayloadSizes(visits, admitted + [n]) == sizes + [item.bytes];
    assert ReusePick(sha, visits, admitted + [n], reuse) == pick + [reused];
    assert (sizes + [item.bytes])[..|sizes|] == sizes && (pick + [reused])[..|pick|] == pick;
  }

  lemma ColonFree(kind: string, message: string)
    ensures !IsBoundedReason(kind + ": " + message) && !IsBoundedReason(LIVE_REASON)
  {
    var reason := kind + ": " + message;
    assert reason[|kind|] == ':';
    assert ':' !in PER_VARIABLE_REASON && ':' !in TOTAL_REASON;
    assert LIVE_REASON[0] == 'l';
  }

  // A linked candidate counts only if its bytes, read back, are the current serialisation's.
  method ReuseBlob(sha: Bytes -> string, prior: Option<Prior>, target: map<string, FileNode>, linkable: set<string>,
                   bytes: nat, digest: string) returns (content: Option<Bytes>)
    requires bytes <= PER_VARIABLE_LIMIT
    ensures content.Some? ==> |content.value| == bytes && sha(content.value) == digest
    ensures content.Some? <==> prior.Some? && prior.value.bytes == bytes && prior.value.sha256 == digest
                               && prior.value.file in linkable
                               && ReadsBack(sha, target, prior.value.file, bytes, digest)
  {
    if prior.None? || prior.value.bytes != bytes || prior.value.sha256 != digest { return None; }
    var file := prior.value.file;
    if file !in target || !target[file].Regular? || file !in linkable { return None; }
    var linked := map[file := target[file]];
    if !ReadsBack(sha, linked, file, bytes, digest) { return None; }
    return Some(target[file].content);
  }

  lemma {:induction false} TallyGrows(visits: seq<Visit>, protectedNames: set<string>, n: nat, m: nat)
    requires n <= m <= |visits|
    ensures TallyOf(visits, protectedNames, n).admitted <= TallyOf(visits, protectedNames, m).admitted
  {
    if n < m {
      TallyGrows(visits, protectedNames, n, m - 1);
    }
  }

  // The manifest after one more visit. Only a size limit counts as bounded; that the count
  // can be recomputed from the reasons rests on ColonFree.
  function WithSkip(manifest: Manifest, item: SkippedItem, bounded: bool): Manifest {
    manifest.(skipped := manifest.skipped + [item],
              stats := manifest.stats.(attemptedVariables := manifest.stats.attemptedVariables + 1,
                                       boundedVariables := manifest.stats.boundedVariables
                                                           + if bounded then 1 else 0))
  }

  function WithItem(manifest: Manifest, item: SavedItem, reused: bool): Manifest {
    var stats := manifest.stats.(attemptedVariables := manifest.stats.attemptedVariables + 1,
                                 serializedVariables := manifest.stats.serializedVariables + 1);
    manifest.(saved := manifest.saved + [item],
              totalBytes := manifest.totalBytes + item.bytes,
              stats := if reused
                       then stats.(reusedBlobs := stats.reusedBlobs + 1, reusedBytes := stats.reusedBytes + item.bytes)
                       else stats.(writtenBlobs := stats.writtenBlobs + 1,
                                   writtenBytes := stats.writtenBytes + item.bytes))
  }

  lemma SkipDescribed(sha: Bytes -> string, visits: seq<Visit>, protectedNames: set<string>, n: nat,
                      groups: seq<nat>, manifest: Manifest, files: map<string, FileNode>, item: SkippedItem,
                      bounded: bool)
    requires bounded == IsBoundedReason(item.reason)
    requires n < |visits| && Describes(sha, visits, protectedNames, n, groups, manifest, files)
    requires var before := TallyOf(visits, protectedNames, n);
             TallyOf(visits, protectedNames, n + 1) == before.(skipped := before.skipped + [item])
    ensures Describes(sha, visits, protectedNames, n + 1, groups, WithSkip(manifest, item, bounded), files)
  {
    assert (manifest.skipped + [item])[..|manifest.skipped|] == manifest.skipped;
  }

  lemma ItemAdded(sha: Bytes -> string, visits: seq<Visit>, admitted: seq<nat>, groups: seq<nat>,
                  saved: seq<SavedItem>, files: map<string, FileNode>, n: nat, group: nat, content: Bytes)
    requires n < |visits| && visits[n].outcome.Dumped? && |visits[n].outcome.payload| <= PER_VARIABLE_LIMIT
    requires SoundGroups(visits, admitted, groups) && ItemsMatch(sha, visits, admitted, groups, saved, files)
    requires SoundGroups(visits, admitted + [n], groups + [group])
    requires |content| == |visits[n].outcome.payload| && sha(content) == sha(visits[n].outcome.payload)
    ensures var item := ItemFor(sha, visits[n], |groups|, group);
            ItemsMatch(sha, visits, admitted + [n], groups + [group], saved + [item],
                       files[item.file := Regular(content)])
  {
    var item := ItemFor(sha, visits[n], |groups|, group);
    forall k | 0 <= k < |admitted| ensures saved[k].file != item.file {
      if saved[k].file == item.file {
        BlobNamesApart(k, groups[k], |groups|, group);
      }
    }
  }

  lemma StatsAdded(sizes: seq<nat>, manifest: Manifest, item: SavedItem, reused: bool)
    requires StatsMatch(sizes, manifest)
    ensures StatsMatch(sizes + [item.bytes], WithItem(manifest, item, reused))
  {
    var stats' := WithItem(manifest, item, reused).stats;
    BlobAttribution.LastEntry(sizes, item.bytes, stats'.reusedBlobs, stats'.reusedBytes);
  }

  lemma AdmitDescribed(sha: Bytes -> string, visits: seq<Visit>, protectedNames: set<string>, n: nat,
                       groups: seq<nat>, manifest: Manifest, files: map<string, FileNode>,
                       group: nat, content: Bytes, reused: bool)
    requires n < |visits| && Describes(sha, visits, protectedNames, n, groups, manifest, files)
    requires visits[n].outcome.Dumped? && |visits[n].outcome.payload| <= PER_VARIABLE_LIMIT
    requires var before := TallyOf(visits, protectedNames, n);
             && TallyOf(visits, protectedNames, n + 1)
                == Tally(before.admitted + [n], before.skipped, before.total + |visits[n].outcome.payload|)
             && SoundGroups(visits, before.admitted + [n], groups + [group])
    requires |content| == |visits[n].outcome.payload| && sha(content) == sha(visits[n].outcome.payload)
    ensures var item := ItemFor(sha, visits[n], |groups|, group);
            Describes(sha, visits, protectedNames, n + 1, groups + [group], WithItem(manifest, item, reused),
                      files[item.file := Regular(content)])
  {
    var before := TallyOf(visits, protectedNames, n).admitted;
    var item := ItemFor(sha, visits[n], |groups|, group);
    ItemAdded(sha, visits, before, groups, manifest.saved, files, n, group, content);
    assert PayloadSizes(visits, before + [n]) == PayloadSizes(visits, before) + [item.bytes];
    StatsAdded(PayloadSizes(visits, before), manifest, item, reused);
  }

  // ---------- the loop's table of roots ----------

  // Each recorded address names a group by its first member's identity.
  ghost predicate RootsSound(visits: seq<Visit>, admitted: seq<nat>, groups: seq<nat>, roots: map<nat, (nat, nat)>)
    requires SoundGroups(visits, admitted, groups)
  {
    forall a :: a in roots ==>
      var (value, group) := roots[a];
      group < |groups| && groups[group] == group && visits[admitted[group]].value == value
  }

  // While every admitted object is kept alive, its address leads to its group.
  ghost predicate RootsFull(visits: seq<Visit>, admitted: seq<nat>, groups: seq<nat>, roots: map<nat, (nat, nat)>)
    requires SoundGroups(visits, admitted, groups)
  {
    forall k :: 0 <= k < |groups| ==>
      && visits[admitted[k]].address in roots
      && roots[visits[admitted[k]].address] == (visits[admitted[k]].value, groups[k])
  }

  // The group of a value met under an address: the recorded one, or a new one.
  function GroupOf(roots: map<nat, (nat, nat)>, visit: Visit, ordinal: nat): nat {
    if visit.address in roots && roots[visit.address].0 == visit.value then roots[visit.address].1 else ordinal
  }

  function RootsWith(roots: map<nat, (nat, nat)>, visit: Visit, ordinal: nat): map<nat, (nat, nat)> {
    if visit.address in roots && roots[visit.address].0 == visit.value then roots
    else roots[visit.address := (visit.value, ordinal)]
  }

  lemma RootsExtend(visits: seq<Visit>, admitted: seq<nat>, groups: seq<nat>, roots: map<nat, (nat, nat)>, n: nat)
    requires n < |visits| && SoundGroups(visits, admitted, groups) && RootsSound(visits, admitted, groups, roots)
    ensures SoundGroups(visits, admitted + [n], groups + [GroupOf(roots, visits[n], |groups|)])
    ensures RootsSound(visits, admitted + [n], groups + [GroupOf(roots, visits[n], |groups|)],
                       RootsWith(roots, visits[n], |groups|))
  {
  }

  lemma RootsStayFull(visits: seq<Visit>, admitted: seq<nat>, groups: seq<nat>, roots: map<nat, (nat, nat)>, n: nat)
    requires n < |visits| && SoundGroups(visits, admitted, groups) && RootsSound(visits, admitted, groups, roots)
    requires forall k :: 0 <= k < |admitted| ==> admitted[k] < n
    requires KeptAlive(visits, admitted) && FullGroups(visits, admitted, groups)
    requires RootsFull(visits, admitted, groups, roots)
    requires SoundGroups(visits, admitted + [n], groups + [GroupOf(roots, visits[n], |groups|)])
    ensures FullGroups(visits, admitted + [n], groups + [GroupOf(roots, visits[n], |groups|)])
    ensures RootsFull(visits, admitted + [n], groups + [GroupOf(roots, visits[n], |groups|)],
                      RootsWith(roots, visits[n], |groups|))
  {
  }

  datatype Progress = Progress(manifest: Manifest, files: map<string, FileNode>, roots: map<nat, (nat, nat)>)

  ghost predicate SavedSoFar(sha: Bytes -> string, visits: seq<Visit>, protectedNames: set<string>, n: nat,
                             reuse: Reuse, groups: seq<nat>, p: Progress)
    requires n <= |visits|
  {
    var admitted := TallyOf(visits, protectedNames, n).admitted;
    && Describes(sha, visits, protectedNames, n, groups, p.manifest, p.files)
    && CountsReuse(sha, visits, admitted, reuse, p.manifest.stats)
    && RootsSound(visits, admitted, groups, p.roots)
    && (KeptAlive(visits, admitted) ==>
          FullGroups(visits, admitted, groups) && RootsFull(visits, admitted, groups, p.roots))
  }

  lemma SkipSaved(sha: Bytes -> string, visits: seq<Visit>, protectedNames: set<string>, n: nat,
                  reuse: Reuse, groups: seq<nat>, p: Progress, item: SkippedItem, bounded: bool)
    requires n < |visits| && bounded == IsBoundedReason(item.reason)
    requires SavedSoFar(sha, visits, protectedNames, n, reuse, groups, p)
    requires var before := TallyOf(visits, protectedNames, n);
             TallyOf(visits, protectedNames, n + 1) == before.(skipped := before.skipped + [item])
    ensures SavedSoFar(sha, visits, protectedNames, n + 1, reuse, groups,
                       p.(manifest := WithSkip(p.manifest, item, bounded)))
  {
    SkipDescribed(sha, visits, protectedNames, n, groups, p.manifest, p.files, item, bounded);
  }

  method StoreValue(sha: Bytes -> string, visits: seq<Visit>, protectedNames: set<string>, n: nat, reuse: Reuse,
                    p: Progress, ghost groups: seq<nat>) returns (p': Progress, ghost group: nat)
    requires n < |visits| && visits[n].outcome.Dumped? && |visits[n].outcome.payload| <= PER_VARIABLE_LIMIT
    requires SavedSoFar(sha, visits, protectedNames, n, reuse, groups, p)
    requires var before := TallyOf(visits, protectedNames, n);
             TallyOf(visits, protectedNames, n + 1)
             == Tally(before.admitted + [n], before.skipped, before.total + |visits[n].outcome.payload|)
    ensures SavedSoFar(sha, visits, protectedNames, n + 1, reuse, groups + [group], p')
    ensures p'.manifest.checkpoint == p.manifest.checkpoint
  {
    var visit := visits[n];
    var payload := visit.outcome.payload;
    ghost var admitted := TallyOf(visits, protectedNames, n).admitted;
    TallyBounds(visits, protectedNames, n);
    var ordinal := GroupOf(p.roots, visit, |p.manifest.saved|);
    group := ordinal;
    RootsExtend(visits, admitted, groups, p.roots, n);
    KeptAliveBefore(visits, admitted, n);
    if KeptAlive(visits, admitted) { RootsStayFull(visits, admitted, groups, p.roots, n); }
    var candidate := if visit.name in reuse.prior then Some(reuse.prior[visit.name]) else None;
    var reused := ReuseBlob(sha, candidate, reuse.target, reuse.linkable, |payload|, sha(payload));
    var content := if reused.Some? then reused.value else payload;
    var item := SavedItem(visit.name, BlobName(|p.manifest.saved|, ordinal), |payload|, sha(payload));
    assert reused.Some? == Reuses(sha, visit, reuse);
    CountOneMore(sha, visits, admitted, reuse, p.manifest, n, item);
    AdmitDescribed(sha, visits, protectedNames, n, groups, p.manifest, p.files, group, content, reused.Some?);
    p' := Progress(WithItem(p.manifest, item, reused.Some?),
                   p.files[item.file := Regular(content)],
                   RootsWith(p.roots, visit, |p.manifest.saved|));
  }

  lemma KeptAliveBefore(visits: seq<Visit>, admitted: seq<nat>, n: nat)
    ensures KeptAlive(visits, admitted + [n]) ==> KeptAlive(visits, admitted)
  {
    if KeptAlive(visits, admitted + [n]) {
      forall k, i | 0 <= k < |admitted| && admitted[k] < i < |visits|
        ensures visits[admitted[k]].address == visits[i].address <==> visits[admitted[k]].value == visits[i].value
      {
        assert (admitted + [n])[k] == admitted[k];
      }
    }
  }

  // pieces says how the serialiser divides what it writes, which does not matter.
  ghost predicate Divides(pieces: Bytes -> seq<Bytes>) {
    forall content :: BoundedSink.Joined(pieces(content)) == content
  }

  // Why a visible member is skipped, if it is, and whether a size limit is the reason: its
  // serialisation is written into a sink with what is left of the limits.
  method ReasonToSkip(visit: Visit, pieces: Bytes -> seq<Bytes>, remaining: nat, index: nat,
                      protectedNames: set<string>, ghost before: Tally)
    returns (reason: Option<string>, bounded: bool)
    requires Visible(visit.name, protectedNames) && remaining == TOTAL_SNAPSHOT_LIMIT - before.total
    requires Divides(pieces)
    ensures reason.None? <==> && !visit.live && visit.outcome.Dumped?
                              && |visit.outcome.payload| <= PER_VARIABLE_LIMIT && |visit.outcome.payload| <= remaining
    ensures visit.live ==> reason == Some("live runtime object")
    ensures !visit.live && (|Content(visit)| > PER_VARIABLE_LIMIT || |Content(visit)| > remaining) ==>
              reason == Some(if remaining < PER_VARIABLE_LIMIT then "total snapshot size limit"
                             else "per-variable size limit")
    ensures bounded <==> !visit.live && (|Content(visit)| > PER_VARIABLE_LIMIT || |Content(visit)| > remaining)
    ensures reason.Some? ==>
              && bounded == IsBoundedReason(reason.value)
              && Admit(visit, index, protectedNames, before)
                 == before.(skipped := before.skipped + [SkippedItem(visit.name, reason.value)])
    ensures reason.None? ==>
              && visit.outcome.Dumped? && |visit.outcome.payload| <= PER_VARIABLE_LIMIT
              && Admit(visit, index, protectedNames, before)
                 == Tally(before.admitted + [index], before.skipped, before.total + |visit.outcome.payload|)
  {
    if visit.live {
      ColonFree("", "");
      return Some(LIVE_REASON), false;
    }
    var content := if visit.outcome.Dumped? then visit.outcome.payload else visit.outcome.written;
    var kept := BoundedSink.Dump(pieces(content), Min(PER_VARIABLE_LIMIT, remaining));
    if kept.None? { return Some(SizeReason(remaining)), true; }
    if visit.outcome.Failed? {
      ColonFree(visit.outcome.kind, visit.outcome.message);
      return Some(visit.outcome.kind + ": " + visit.outcome.message), false;
    }
    return None, false;
  }

  lemma NothingSaved(sha: Bytes -> string, visits: seq<Visit>, protectedNames: set<string>, reuse: Reuse, p: Progress)
    requires p.manifest.saved == [] && p.manifest.skipped == [] && p.manifest.totalBytes == 0
    requires p.files == map[] && p.roots == map[]
    requires p.manifest.stats == Stats(0, 0, 0, 0, 0, 0, 0, p.manifest.stats.durationMs)
    requires p.manifest.stats.durationMs >= 0.0
    ensures SavedSoFar(sha, visits, protectedNames, 0, reuse, [], p)
  {
    BlobAttribution.NoneOrAll([], 0);
    assert PayloadSizes(visits, []) == [] && ReusePick(sha, visits, [], reuse) == [];
  }

  // One visit: a protected or private member is passed over, a refused one is skipped.
  method SaveVisit(sha: Bytes -> string, pieces: Bytes -> seq<Bytes>, visits: seq<Visit>,
                   protectedNames: set<string>, n: nat, reuse: Reuse, p: Progress, ghost groups: seq<nat>)
    returns (p': Progress, ghost groups': seq<nat>)
    requires Divides(pieces)
    requires n < |visits| && SavedSoFar(sha, visits, protectedNames, n, reuse, groups, p)
    ensures SavedSoFar(sha, visits, protectedNames, n + 1, reuse, groups', p')
    ensures p'.manifest.checkpoint == p.manifest.checkpoint
  {
    var visit := visits[n];
    if !Visible(visit.name, protectedNames) { return p, groups; }
    var remaining := TOTAL_SNAPSHOT_LIMIT - p.manifest.totalBytes;
    assert remaining >= 0 by { TallyBounds(visits, protectedNames, n); }
    var reason, bounded := ReasonToSkip(visit, pieces, remaining, n, protectedNames,
                                        TallyOf(visits, protectedNames, n));
    if reason.Some? {
      var item := SkippedItem(visit.name, reason.value);
      SkipSaved(sha, visits, protectedNames, n, reuse, groups, p, item, bounded);
      return p.(manifest := WithSkip(p.manifest, item, bounded)), groups;
    }
    ghost var group;
    p', group := StoreValue(sha, visits, protectedNames, n, reuse, p, groups);
    groups' := groups + [group];
  }

  // The manifest's two lists say exactly what became of the visits.
  ghost predicate ListsExactly(sha: Bytes -> string, visits: seq<Visit>, protectedNames: set<string>,
                               saved: seq<nat>, skips: seq<nat>, manifest: Manifest) {
    && SavedExactly(visits, protectedNames, |visits|, saved)
    && SkippedExactly(visits, protectedNames, |visits|, saved, skips, manifest.skipped)
    && EntriesOf(sha, visits, saved, manifest.saved)
  }

  lemma SavedAsVisited(sha: Bytes -> string, visits: seq<Visit>, protectedNames: set<string>, groups: seq<nat>,
                       manifest: Manifest, files: map<string, FileNode>) returns (saved: seq<nat>, skips: seq<nat>)
    requires Describes(sha, visits, protectedNames, |visits|, groups, manifest, files)
    ensures ListsExactly(sha, visits, protectedNames, saved, skips, manifest)
  {
    saved := TallyOf(visits, protectedNames, |visits|).admitted;
    skips := TallyExactly(visits, protectedNames, |visits|, TallyOf(visits, protectedNames, |visits|));
  }

  method SaveSnapshot(sha: Bytes -> string, pieces: Bytes -> seq<Bytes>, visits: seq<Visit>,
                      protectedNames: set<string>, checkpoint: Option<Json>, reuse: Reuse, durationMs: real)
    returns (result: Option<(Manifest, map<string, FileNode>)>, ghost groups: seq<nat>,
             ghost saved: seq<nat>, ghost skips: seq<nat>)
    requires durationMs >= 0.0 && Divides(pieces)
    ensures result.None? <==> checkpoint.Some? && !ValidCheckpoint(checkpoint.value)
    ensures result.Some? ==>
              && Describes(sha, visits, protectedNames, |visits|, groups, result.value.0, result.value.1)
              && CountsReuse(sha, visits, TallyOf(visits, protectedNames, |visits|).admitted, reuse,
                             result.value.0.stats)
              && result.value.0.checkpoint == checkpoint
              && (KeptAlive(visits, TallyOf(visits, protectedNames, |visits|).admitted) ==>
                    FullGroups(visits, TallyOf(visits, protectedNames, |visits|).admitted, groups))
    // saved and skips are the visits that the manifest's two lists stand for.
    ensures result.Some? ==>
              ListsExactly(sha, visits, protectedNames, saved, skips, result.value.0)
  {
    groups, saved, skips := [], [], [];
    if checkpoint.Some? && !ValidCheckpoint(checkpoint.value) {
      return None, groups, saved, skips;
    }
    var p := Progress(Manifest([], [], 0, Stats(0, 0, 0, 0, 0, 0, 0, durationMs), checkpoint), map[], map[]);
    NothingSaved(sha, visits, protectedNames, reuse, p);
    for n := 0 to |visits|
      invariant SavedSoFar(sha, visits, protectedNames, n, reuse, groups, p)
      invariant p.manifest.checkpoint == checkpoint
    {
      p, groups := SaveVisit(sha, pieces, visits, protectedNames, n, reuse, p, groups);
    }
    saved, skips := SavedAsVisited(sha, visits, protectedNames, groups, p.manifest, p.files);
    return Some((p.manifest, p.files)), groups, saved, skips;
  }
}
