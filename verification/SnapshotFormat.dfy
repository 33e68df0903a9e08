// Parsed JSON, the directory a snapshot is read from, and the vocabulary its manifest uses.
module SnapshotFormat {
  import opened Wrappers

  const SNAPSHOT_VERSION := 2
  const PER_VARIABLE_LIMIT := 4 * 1024 * 1024
  const TOTAL_SNAPSHOT_LIMIT := 16 * 1024 * 1024
  const MANIFEST_LIMIT := 1024 * 1024

  const PER_VARIABLE_REASON := "per-variable size limit"
  const TOTAL_REASON := "total snapshot size limit"

  // JFloat(false, _) is an infinity, which a long enough JSON number parses to.
  datatype Json =
    | JNull
    | JBool(b: bool)
    | JInt(i: int)
    | JFloat(finite: bool, value: real)
    | JString(s: string)
    | JArray(items: seq<Json>)
    | JObject(members: map<string, Json>)

  // A missing member reads as None.
  function Get(members: map<string, Json>, key: string): Json {
    if key in members then members[key] else JNull
  }

  predicate ExactKeys(members: map<string, Json>, required: set<string>, optional: set<string>) {
    required <= members.Keys <= required + optional
  }

  predicate NonNegativeInteger(j: Json) { j.JInt? && j.i >= 0 }

  type Bytes = seq<bv8>

  datatype FileNode = Regular(content: Bytes) | Special

  // size is the length of the manifest file; text that does not parse is Unreadable.
  datatype ManifestFile = Unreadable | Parsed(size: nat, value: Json)

  datatype SnapshotDirectory = SnapshotDirectory(manifest: ManifestFile, files: map<string, FileNode>)

  // A no-follow read of a regular file with the declared size and digest.
  predicate ReadsBack(sha: Bytes -> string, files: map<string, FileNode>, file: string, bytes: nat, digest: string) {
    && file in files && files[file].Regular?
    && |files[file].content| == bytes <= PER_VARIABLE_LIMIT
    && sha(files[file].content) == digest
  }

  predicate IsDigest(s: string) {
    |s| == 64 && forall k :: 0 <= k < |s| ==> '0' <= s[k] <= '9' || 'a' <= s[k] <= 'f'
  }

  predicate NonEmptyString(j: Json) { j.JString? && j.s != "" }

  predicate ValidCheckpoint(j: Json) {
    && j.JObject?
    && ExactKeys(j.members, {"version", "sessionId", "toolCallId", "actorGeneration", "executionId"}, {})
    && j.members["version"] == JInt(1)
    && NonEmptyString(j.members["sessionId"])
    && NonEmptyString(j.members["toolCallId"])
    && NonEmptyString(j.members["executionId"])
    && NonNegativeInteger(j.members["actorGeneration"]) && j.members["actorGeneration"].i > 0
  }

  predicate SafeBasename(s: string) {
    s != "" && s != "." && s != ".." && '/' !in s && '\\' !in s && '\0' !in s
  }

  // True of every index whose key occurs at another index too.
  predicate Repeated(keys: seq<Option<string>>, i: nat)
    requires i < |keys|
  {
    keys[i].Some? && exists k :: 0 <= k < |keys| && k != i && keys[k] == keys[i]
  }

  // name -> positions, as the validator's dictionaries of indexes.
  method IndexBy(keys: seq<Option<string>>) returns (indexes: map<string, set<nat>>)
    ensures forall key :: key in indexes <==> Some(key) in keys
    ensures forall i :: 0 <= i < |keys| && keys[i].Some? ==>
              keys[i].value in indexes && (|indexes[keys[i].value]| > 1 <==> Repeated(keys, i))
  {
    indexes := map[];
    for n := 0 to |keys|
      invariant forall key :: key in indexes <==> Some(key) in keys[..n]
      invariant forall key :: key in indexes ==>
                  indexes[key] == set k: nat | k < n && keys[k] == Some(key)
    {
      if keys[n].Some? {
        var key := keys[n].value;
        indexes := indexes[key := (if key in indexes then indexes[key] else {}) + {n}];
      }
    }
    assert keys[..|keys|] == keys;
    forall i | 0 <= i < |keys| && keys[i].Some?
      ensures keys[i].value in indexes && (|indexes[keys[i].value]| > 1 <==> Repeated(keys, i))
    {
      var same := indexes[keys[i].value];
      assert Some(keys[i].value) in keys;
      OthersInSet(same, i);
      if Repeated(keys, i) {
        var k: nat :| k < |keys| && k != i && keys[k] == keys[i];
        assert k in same;
      }
    }
  }

  lemma OthersInSet(s: set<nat>, i: nat)
    requires i in s
    ensures |s| > 1 <==> exists k :: k in s && k != i
  {
    assert s == {i} + (s - {i});
    if |s| > 1 {
      var k :| k in s - {i};
    }
  }
}
