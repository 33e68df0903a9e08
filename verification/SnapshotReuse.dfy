// What a save may reuse of the snapshot before it: a lookup hint read from its manifest.
module SnapshotReuse {
  import opened Wrappers
  import opened SnapshotFormat
  import opened SnapshotSave
  import opened SnapshotValidation

  predicate Named(saved: seq<Json>, k: nat, name: string)
    requires k < |saved|
  {
    StringMember(saved[k], "name") == Some(name)
  }

  predicate Usable(item: Json) {
    && item.JObject?
    && Get(item.members, "file").JString? && SafeBasename(item.members["file"].s)
    && NonNegativeInteger(Get(item.members, "bytes")) && item.members["bytes"].i <= PER_VARIABLE_LIMIT
    && Get(item.members, "sha256").JString? && IsDigest(item.members["sha256"].s)
  }

  function PriorOf(item: Json): Prior
    requires Usable(item)
  {
    Prior(item.members["file"].s, item.members["bytes"].i, item.members["sha256"].s)
  }

  predicate HasEntries(manifest: Json) {
    && manifest.JObject?
    && Get(manifest.members, "version") in {JInt(1), JInt(SNAPSHOT_VERSION)}
    && Get(manifest.members, "saved").JArray?
  }

  // Among the first n entries, entry k alone has the name.
  ghost predicate OnlyAt(saved: seq<Json>, n: nat, k: nat, name: string)
    requires k < n <= |saved|
  {
    Named(saved, k, name) && forall j :: 0 <= j < n && j != k ==> !Named(saved, j, name)
  }

  ghost predicate IsCandidate(saved: seq<Json>, n: nat, name: string, prior: Prior)
    requires n <= |saved|
  {
    exists k :: 0 <= k < n && OnlyAt(saved, n, k, name) && Usable(saved[k]) && PriorOf(saved[k]) == prior
  }

  ghost predicate Met(saved: seq<Json>, n: nat, name: string)
    requires n <= |saved|
  {
    exists k :: 0 <= k < n && Named(saved, k, name)
  }

  lemma MetStep(saved: seq<Json>, n: nat, name: string)
    requires n < |saved|
    ensures Met(saved, n + 1, name) <==> Met(saved, n, name) || Named(saved, n, name)
  {
    if k :| 0 <= k < n && Named(saved, k, name) { assert k < n + 1; }
  }

  predicate Offers(candidates: map<string, Prior>, name: string, prior: Prior) {
    name in candidates && candidates[name] == prior
  }

  // The candidates of the first n entries, and the names met so far.
  ghost predicate Collected(saved: seq<Json>, n: nat, candidates: map<string, Prior>, seen: set<string>)
    requires n <= |saved|
  {
    && (forall name :: name in seen <==> Met(saved, n, name))
    && (forall name, prior :: Offers(candidates, name, prior) <==> IsCandidate(saved, n, name, prior))
  }

  lemma UnnamedKeeps(saved: seq<Json>, n: nat, candidates: map<string, Prior>, seen: set<string>)
    requires n < |saved| && Collected(saved, n, candidates, seen)
    requires StringMember(saved[n], "name").None?
    ensures Collected(saved, n + 1, candidates, seen)
  {
    forall name, prior ensures IsCandidate(saved, n + 1, name, prior) <==> IsCandidate(saved, n, name, prior) {
      CandidateStep(saved, n, name, prior);
    }
    forall name ensures Met(saved, n + 1, name) <==> Met(saved, n, name) { MetStep(saved, n, name); }
  }

  // A further entry leaves the candidates of other names alone.
  lemma CandidateStep(saved: seq<Json>, n: nat, name: string, prior: Prior)
    requires n < |saved| && !Named(saved, n, name)
    ensures IsCandidate(saved, n + 1, name, prior) <==> IsCandidate(saved, n, name, prior)
  {
    if k :| 0 <= k < n && OnlyAt(saved, n, k, name) && Usable(saved[k]) && PriorOf(saved[k]) == prior {
      assert OnlyAt(saved, n + 1, k, name);
    }
    if k :| 0 <= k < n + 1 && OnlyAt(saved, n + 1, k, name) && Usable(saved[k]) && PriorOf(saved[k]) == prior {
      assert OnlyAt(saved, n, k, name);
    }
  }

  // An entry of a new name is its only candidate, if it is usable; one of a known name
  // leaves the name without any.
  lemma NamedStep(saved: seq<Json>, n: nat, name: string, prior: Prior, met: bool)
    requires n < |saved| && Named(saved, n, name)
    requires met <==> Met(saved, n, name)
    ensures IsCandidate(saved, n + 1, name, prior) <==> !met && Usable(saved[n]) && PriorOf(saved[n]) == prior
  {
    if !met {
      assert OnlyAt(saved, n + 1, n, name) by {
        forall j | 0 <= j < n ensures !Named(saved, j, name) {
        }
      }
    }
  }

  lemma NamedKeeps(saved: seq<Json>, n: nat, candidates: map<string, Prior>, seen: set<string>,
                   candidates': map<string, Prior>, name: string)
    requires n < |saved| && Collected(saved, n, candidates, seen) && Named(saved, n, name)
    requires candidates' == if name in seen then candidates - {name}
                            else if Usable(saved[n]) then candidates[name := PriorOf(saved[n])]
                            else candidates
    ensures Collected(saved, n + 1, candidates', seen + {name})
  {
    forall other, prior
      ensures Offers(candidates', other, prior) <==> IsCandidate(saved, n + 1, other, prior)
    {
      if other == name {
        OneName(saved, n, candidates, seen, name, prior);
      } else {
        CandidateStep(saved, n, other, prior);
        assert Offers(candidates', other, prior) <==> Offers(candidates, other, prior);
      }
    }
    forall other ensures Met(saved, n + 1, other) <==> other in seen + {name} { MetStep(saved, n, other); }
  }

  lemma OneName(saved: seq<Json>, n: nat, candidates: map<string, Prior>, seen: set<string>, name: string,
                prior: Prior)
    requires n < |saved| && Collected(saved, n, candidates, seen) && Named(saved, n, name)
    ensures name !in seen ==> name !in candidates
    ensures IsCandidate(saved, n + 1, name, prior) <==> name !in seen && Usable(saved[n]) && PriorOf(saved[n]) == prior
  {
    NamedStep(saved, n, name, prior, name in seen);
    if name in candidates {
      assert Offers(candidates, name, candidates[name]);
      assert IsCandidate(saved, n, name, candidates[name]);
      var k :| 0 <= k < n && OnlyAt(saved, n, k, name) && Usable(saved[k]) && PriorOf(saved[k]) == candidates[name];
      assert Named(saved, k, name);
    }
  }

  // Exactly the names that one entry alone has, with that entry's blob if it is usable.
  method ReuseCandidates(manifest: Option<Json>) returns (candidates: map<string, Prior>)
    ensures manifest.None? || !HasEntries(manifest.value) ==> candidates == map[]
    ensures manifest.Some? && HasEntries(manifest.value) ==>
              var saved := manifest.value.members["saved"].items;
              forall name, prior :: Offers(candidates, name, prior) <==> IsCandidate(saved, |saved|, name, prior)
  {
    candidates := map[];
    if manifest.None? || !HasEntries(manifest.value) { return; }
    var saved := manifest.value.members["saved"].items;
    var seen: set<string> := {};
    for n := 0 to |saved|
      invariant Collected(saved, n, candidates, seen)
    {
      var name := StringMember(saved[n], "name");
      if name.None? {
        UnnamedKeeps(saved, n, candidates, seen);
        continue;
      }
      ghost var before := candidates;
      if name.value in seen {
        candidates := candidates - {name.value};
      } else if Usable(saved[n]) {
        candidates := candidates[name.value := PriorOf(saved[n])];
      }
      NamedKeeps(saved, n, before, seen, candidates, name.value);
      seen := seen + {name.value};
    }
  }
}
