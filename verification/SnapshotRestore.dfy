// Restoring validated entries: one decoded value per root group.
module SnapshotRestore {
  import opened Wrappers
  import opened SnapshotFormat
  import opened SnapshotValidation
  import SnapshotSave

  // Every successful load makes a new object, named here by the entry it was loaded from.
  datatype Value = Existing(id: nat) | Loaded(position: nat)

  type Namespace = map<string, Value>

  // What a restore is given. loads says of each entry whether its payload would load.
  datatype Task = Task(entries: seq<Entry>, protectedNames: set<string>, loads: nat -> bool) {

    predicate Eligible(p: nat)
      requires p < |entries|
    {
      SnapshotSave.Visible(entries[p].name, protectedNames)
    }

    predicate SameRoot(q: nat, p: nat)
      requires q < |entries| && p < |entries|
    {
      q == p || (entries[p].root.Some? && entries[q].root == entries[p].root)
    }

    // An unprotected, loadable entry of p's group.
    predicate Candidate(q: nat, p: nat)
      requires q < |entries| && p < |entries|
    {
      SameRoot(q, p) && Eligible(q) && loads(q)
    }

    // The first of p's candidates among the first n entries.
    function Earliest(p: nat, n: nat): Option<nat>
      requires p < |entries| && n <= |entries|
      decreases n
    {
      if n == 0 then None
      else if Earliest(p, n - 1).Some? then Earliest(p, n - 1)
      else if Candidate(n - 1, p) then Some(n - 1)
      else None
    }

    // The entry whose decoded value p receives, if any.
    function Source(p: nat): Option<nat>
      requires p < |entries|
    {
      if Eligible(p) then Earliest(p, p + 1) else None
    }

    ghost predicate DistinctNames() {
      forall i, j :: 0 <= i < j < |entries| ==> entries[i].name != entries[j].name
    }
  }

  lemma {:induction false} EarliestMeaning(t: Task, p: nat, n: nat)
    requires p < |t.entries| && n <= |t.entries|
    ensures var q := t.Earliest(p, n);
            && (q.Some? ==> q.value < n && t.Candidate(q.value, p)
                            && forall r :: 0 <= r < q.value ==> !t.Candidate(r, p))
            && (q.None? ==> forall r :: 0 <= r < n ==> !t.Candidate(r, p))
  {
    if n > 0 {
      EarliestMeaning(t, p, n - 1);
    }
  }

  // One of the first n entries restored the name.
  ghost predicate RestoredBy(t: Task, n: nat, name: string)
    requires n <= |t.entries|
  {
    exists p :: 0 <= p < n && t.entries[p].name == name && t.Source(p).Some?
  }

  ghost predicate Bound(t: Task, p: nat, after: Namespace, restored: seq<string>)
    requires p < |t.entries| && t.Source(p).Some?
  {
    && t.entries[p].name in restored
    && t.entries[p].name in after && after[t.entries[p].name] == Loaded(t.Source(p).value)
  }

  // The namespace after the first n entries.
  ghost predicate RestoredPrefix(t: Task, n: nat, before: Namespace, after: Namespace, restored: seq<string>)
    requires n <= |t.entries|
  {
    && (forall p :: 0 <= p < n && t.Source(p).Some? ==> Bound(t, p, after, restored))
    && (forall name :: name in restored ==> RestoredBy(t, n, name))
    && (forall name :: name !in restored ==>
          (name in after <==> name in before) && (name in before ==> after[name] == before[name]))
  }

  lemma RestoredLater(t: Task, n: nat, name: string)
    requires n < |t.entries| && RestoredBy(t, n, name)
    ensures RestoredBy(t, n + 1, name)
  {
    var p :| 0 <= p < n && t.entries[p].name == name && t.Source(p).Some?;
    assert p < n + 1;
  }

  lemma StillBound(t: Task, p: nat, n: nat, after: Namespace, restored: seq<string>, source: nat)
    requires p < n < |t.entries| && t.DistinctNames() && t.Source(p).Some? && Bound(t, p, after, restored)
    ensures Bound(t, p, after[t.entries[n].name := Loaded(source)], restored + [t.entries[n].name])
  {
    assert t.entries[p].name != t.entries[n].name;
  }

  lemma BindStep(t: Task, n: nat, before: Namespace, after: Namespace, restored: seq<string>, source: nat)
    requires n < |t.entries| && t.DistinctNames() && t.Source(n) == Some(source)
    requires RestoredPrefix(t, n, before, after, restored)
    ensures var name := t.entries[n].name;
            RestoredPrefix(t, n + 1, before, after[name := Loaded(source)], restored + [name])
  {
    var name := t.entries[n].name;
    forall other | other in restored + [name] ensures RestoredBy(t, n + 1, other) {
      if other in restored { RestoredLater(t, n, other); }
    }
    forall p | 0 <= p < n && t.Source(p).Some?
      ensures Bound(t, p, after[name := Loaded(source)], restored + [name])
    {
      StillBound(t, p, n, after, restored, source);
    }
  }

  lemma PassStep(t: Task, n: nat, before: Namespace, after: Namespace, restored: seq<string>)
    requires n < |t.entries| && t.Source(n).None?
    requires RestoredPrefix(t, n, before, after, restored)
    ensures RestoredPrefix(t, n + 1, before, after, restored)
  {
    forall name | name in restored ensures RestoredBy(t, n + 1, name) { RestoredLater(t, n, name); }
  }

  // roots holds the earliest candidate of each group among the first n entries.
  ghost predicate RootsOf(t: Task, n: nat, roots: map<nat, nat>)
    requires n <= |t.entries|
  {
    && (forall g :: g in roots ==>
          roots[g] < n && t.entries[roots[g]].root == Some(g) && t.Eligible(roots[g]) && t.loads(roots[g]))
    && (forall r :: 0 <= r < n && t.entries[r].root.Some? && t.Eligible(r) && t.loads(r) ==>
          t.entries[r].root.value in roots && roots[t.entries[r].root.value] <= r)
  }

  lemma SourceFromRoots(t: Task, n: nat, roots: map<nat, nat>)
    requires n < |t.entries| && RootsOf(t, n, roots)
    ensures var root := t.entries[n].root;
            t.Source(n) == if !t.Eligible(n) then None
                           else if root.Some? && root.value in roots then Some(roots[root.value])
                           else if t.loads(n) then Some(n) else None
  {
    var root := t.entries[n].root;
    EarliestMeaning(t, n, n + 1);
    if root.Some? && root.value in roots {
      assert t.Candidate(roots[root.value], n);
    }
  }

  lemma RootsStep(t: Task, n: nat, roots: map<nat, nat>, roots': map<nat, nat>)
    requires n < |t.entries| && RootsOf(t, n, roots)
    requires var root := t.entries[n].root;
             roots' == if root.Some? && root.value !in roots && t.Eligible(n) && t.loads(n)
                       then roots[root.value := n] else roots
    ensures RootsOf(t, n + 1, roots')
  {
  }

  // The namespace checkpoint a report vouches for: its manifest's, if it is complete.
  function CheckpointOf(report: Report): Option<Json> {
    if report.complete && report.manifest.Some? && report.manifest.value.JObject?
       && "namespaceCheckpoint" in report.manifest.value.members
    then Some(report.manifest.value.members["namespaceCheckpoint"]) else None
  }

  // One entry: its group's value if there is one already, otherwise its own load.
  method RestoreEntry(t: Task, n: nat, ghost before: Namespace, namespace: Namespace, restored: seq<string>,
                      roots: map<nat, nat>)
    returns (namespace': Namespace, restored': seq<string>, roots': map<nat, nat>)
    requires n < |t.entries| && t.DistinctNames()
    requires RestoredPrefix(t, n, before, namespace, restored) && RootsOf(t, n, roots)
    ensures RestoredPrefix(t, n + 1, before, namespace', restored') && RootsOf(t, n + 1, roots')
  {
    var name, group := t.entries[n].name, t.entries[n].root;
    SourceFromRoots(t, n, roots);
    namespace', restored', roots' := namespace, restored, roots;
    if !t.Eligible(n) {
      PassStep(t, n, before, namespace, restored);
    } else if group.Some? && group.value in roots {
      BindStep(t, n, before, namespace, restored, roots[group.value]);
      namespace', restored' := namespace[name := Loaded(roots[group.value])], restored + [name];
    } else if t.loads(n) {
      BindStep(t, n, before, namespace, restored, n);
      namespace', restored' := namespace[name := Loaded(n)], restored + [name];
      if group.Some? { roots' := roots[group.value := n]; }
    } else {
      PassStep(t, n, before, namespace, restored);
    }
    RootsStep(t, n, roots, roots');
  }

  method RestoreValidatedSnapshot(report: Report, before: Namespace, protectedNames: set<string>, loads: nat -> bool)
    returns (namespace: Namespace, restored: seq<string>, checkpoint: Option<Json>)
    requires Task(report.entries, protectedNames, loads).DistinctNames()
    ensures RestoredPrefix(Task(report.entries, protectedNames, loads), |report.entries|, before, namespace, restored)
    ensures checkpoint == CheckpointOf(report)
    // An incomplete report gives none, a complete one its manifest's if that has one.
    ensures !report.complete ==> checkpoint.None?
    ensures report.complete && report.manifest.Some? && report.manifest.value.JObject? ==>
              var members := report.manifest.value.members;
              && (checkpoint.Some? <==> "namespaceCheckpoint" in members)
              && (checkpoint.Some? ==> checkpoint.value == members["namespaceCheckpoint"])
    ensures report.manifest.None? || !report.manifest.value.JObject? ==> checkpoint.None?
  {
    var t := Task(report.entries, protectedNames, loads);
    namespace, restored := before, [];
    var roots: map<nat, nat> := map[];
    for n := 0 to |t.entries|
      invariant RestoredPrefix(t, n, before, namespace, restored)
      invariant RootsOf(t, n, roots)
    {
      namespace, restored, roots := RestoreEntry(t, n, before, namespace, restored, roots);
    }
    checkpoint := None;
    if report.complete && report.manifest.Some? && report.manifest.value.JObject?
       && "namespaceCheckpoint" in report.manifest.value.members {
      checkpoint := Some(report.manifest.value.members["namespaceCheckpoint"]);
    }
  }

  lemma ReportNamesDistinct(sha: Bytes -> string, source: Option<SnapshotDirectory>,
                            protectedNames: set<string>, loads: nat -> bool)
    ensures Task(ReportOf(sha, source).entries, protectedNames, loads).DistinctNames()
  {
    if source.Some? && source.value.manifest.Parsed? {
      var j := source.value.manifest.value;
      if WellShaped(j) {
        var entries := ReadEntries(sha, source.value.files, Saved(j), Skipped(j), Version(j), |Saved(j)|).entries;
        ListedEntries(sha, source.value.files, Saved(j), Skipped(j), Version(j), |Saved(j)|);
        forall p, q | 0 <= p < q < |entries| ensures entries[p].name != entries[q].name {
          ListedNamesDistinct(sha, source.value.files, Saved(j), Skipped(j), Version(j), entries, p, q);
        }
      }
    }
  }

  // Startup's restore of a snapshot directory, whatever it contains.
  method RestoreSnapshot(sha: Bytes -> string, source: Option<SnapshotDirectory>, before: Namespace,
                         protectedNames: set<string>, loads: nat -> bool)
    returns (namespace: Namespace, restored: seq<string>, checkpoint: Option<Json>)
    ensures var report := ReportOf(sha, source);
            && RestoredPrefix(Task(report.entries, protectedNames, loads), |report.entries|,
                              before, namespace, restored)
            && checkpoint == CheckpointOf(report)
            && (!report.complete ==> checkpoint.None?)
            && (report.complete ==>
                  && source.Some? && source.value.manifest.Parsed? && source.value.manifest.value.JObject?
                  && var members := source.value.manifest.value.members;
                  && (checkpoint.Some? <==> "namespaceCheckpoint" in members)
                  && (checkpoint.Some? ==> checkpoint.value == members["namespaceCheckpoint"]))
  {
    var report := ValidateSnapshotDirectory(sha, source);
    if !report.found {
      return before, [], None;
    }
    ReportNamesDistinct(sha, source, protectedNames, loads);
    namespace, restored, checkpoint := RestoreValidatedSnapshot(report, before, protectedNames, loads);
  }

  lemma RootlessAlone(t: Task, p: nat)
    requires p < |t.entries| && t.entries[p].root.None?
    ensures t.Source(p) == if t.Eligible(p) && t.loads(p) then Some(p) else None
  {
    EarliestMeaning(t, p, p + 1);
  }

  // An entry whose group is not vouched for is restored on its own, and the namespace
  // checkpoint is withheld from the whole restore.
  lemma BadGroupIsolated(sha: Bytes -> string, files: map<string, FileNode>, j: Json, bad: nat,
                         protectedNames: set<string>, loads: nat -> bool, p: nat)
    requires WellShaped(j) && bad < |Saved(j)| && BadGroup(Saved(j), Version(j), bad)
    ensures var report := EntriesReport(sha, files, j);
            var t := Task(report.entries, protectedNames, loads);
            && !report.complete && CheckpointOf(report).None?
            && (p < |t.entries| && t.entries[p].index == bad ==>
                  t.Source(p) == if t.Eligible(p) && loads(p) then Some(p) else None)
  {
    var entries := EntriesReport(sha, files, j).entries;
    CompleteExactly(sha, files, j);
    ListedEntries(sha, files, Saved(j), Skipped(j), Version(j), |Saved(j)|);
    if p < |entries| && entries[p].index == bad {
      RootlessAlone(Task(entries, protectedNames, loads), p);
    }
  }

  // Whatever was corrupt, failed to load or was protected, a group is restored from its
  // earliest unprotected, loadable entry: the entries from there on all share that value,
  // the ones before it are lost, and entries without a group share with nobody.
  lemma GroupSharesOneValue(t: Task, i: nat, j: nat)
    requires i < j < |t.entries| && t.Source(i).Some? && t.Eligible(j)
    ensures t.SameRoot(i, j) ==> t.Source(j) == t.Source(i)
    ensures !t.SameRoot(i, j) ==> t.Source(j) != t.Source(i)
    ensures t.Source(i).value <= i && t.Candidate(t.Source(i).value, i)
    ensures forall r :: 0 <= r < t.Source(i).value ==> !t.Candidate(r, i)
  {
    EarliestMeaning(t, i, i + 1);
    EarliestMeaning(t, j, j + 1);
    var q := t.Source(i).value;
    if t.SameRoot(i, j) {
      assert t.Candidate(q, j);
      forall r | 0 <= r < q ensures !t.Candidate(r, j) {
        assert t.Candidate(r, j) ==> t.Candidate(r, i);
      }
    }
  }

  // An entry is lost exactly if it is protected or nothing of its group up to it loads.
  lemma LostExactly(t: Task, p: nat)
    requires p < |t.entries|
    ensures t.Source(p).None?
            <==> !t.Eligible(p) || forall q :: 0 <= q <= p ==> !t.Candidate(q, p)
  {
    EarliestMeaning(t, p, p + 1);
  }
}
