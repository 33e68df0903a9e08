// Sharing equal MIME values between output records, through an index of weak references
// that agrees with the plain values whatever collides, dies or is edited meanwhile.
module MimeHistory {
  import opened Wrappers

  datatype Kind = Text | Binary

  // An object: its identity, and the exact type and content of a string or bytes value.
  datatype Value = Plain(id: nat, kind: Kind, content: seq<int>) | Foreign(id: nat)

  predicate Same(a: Value, b: Value) {
    a.Plain? && b.Plain? && a.kind == b.kind && a.content == b.content
  }

  datatype Signature = Signature(kind: Kind, digest: nat)

  // digest is an arbitrary hash, so different contents may share a signature.
  function SignatureOf(digest: seq<int> -> nat, v: Value): Option<Signature> {
    if v.Plain? then Some(Signature(v.kind, digest(v.content))) else None
  }

  lemma SameSignature(digest: seq<int> -> nat, a: Value, b: Value)
    requires Same(a, b)
    ensures SignatureOf(digest, a) == SignatureOf(digest, b)
  {
  }

  // ---------- live records and their bundles ----------

  // A record's bundle is a plain dictionary, which other records may refer to as well, or
  // something else entirely.
  datatype Bundle = Dictionary(id: nat) | OtherBundle

  datatype World = World(records: map<nat, Bundle>, dictionaries: map<nat, seq<Value>>)

  function Values(w: World, owner: nat): seq<Value> {
    if owner in w.records && w.records[owner].Dictionary? && w.records[owner].id in w.dictionaries
    then w.dictionaries[w.records[owner].id] else []
  }

  predicate Holds(digest: seq<int> -> nat, w: World, owner: nat, signature: Signature) {
    exists k :: 0 <= k < |Values(w, owner)| && SignatureOf(digest, Values(w, owner)[k]) == Some(signature)
  }

  predicate HoldsEqual(w: World, owner: nat, value: Value) {
    exists k :: 0 <= k < |Values(w, owner)| && Same(Values(w, owner)[k], value)
  }

  // Some records have died since.
  ghost predicate Fewer(w: World, w': World) {
    && w'.dictionaries == w.dictionaries
    && forall o :: o in w'.records ==> o in w.records && w'.records[o] == w.records[o]
  }

  // ---------- the index ----------

  datatype Registration = Registration(token: nat, reference: nat, owner: nat)

  // Registrations in the order they were made.
  type Buckets = map<Signature, seq<Registration>>

  function In(b: Buckets, signature: Signature): seq<Registration> {
    if signature in b then b[signature] else []
  }

  predicate Listed(b: Buckets, signature: Signature, r: Registration) {
    r in In(b, signature)
  }

  function Dropped(s: seq<Registration>, token: nat, reference: nat): seq<Registration> {
    if s == [] then []
    else
      var rest := Dropped(s[..|s| - 1], token, reference);
      if s[|s| - 1].token == token && s[|s| - 1].reference == reference then rest else rest + [s[|s| - 1]]
  }

  function Discarded(b: Buckets, signature: Signature, token: nat, reference: nat): Buckets {
    var left := Dropped(In(b, signature), token, reference);
    if signature !in b then b
    else if left == [] then b - {signature}
    else b[signature := left]
  }

  lemma {:induction false} DroppedMembers(s: seq<Registration>, token: nat, reference: nat)
    ensures forall r :: r in Dropped(s, token, reference)
              <==> r in s && !(r.token == token && r.reference == reference)
  {
    if s != [] { DroppedMembers(s[..|s| - 1], token, reference); }
  }

  // Within a bucket, registrations stand in the order of their tokens.
  ghost predicate Sorted(s: seq<Registration>) {
    forall i, j :: 0 <= i < j < |s| ==> s[i].token < s[j].token
  }

  lemma {:induction false} DroppedSorted(s: seq<Registration>, token: nat, reference: nat)
    requires Sorted(s)
    ensures Sorted(Dropped(s, token, reference))
  {
    if s != [] {
      var rest := s[..|s| - 1];
      DroppedSorted(rest, token, reference);
      DroppedMembers(rest, token, reference);
      var left := Dropped(rest, token, reference);
      assert forall k :: 0 <= k < |left| ==> left[k] in rest;
    }
  }

  lemma DiscardedMembers(b: Buckets, signature: Signature, token: nat, reference: nat)
    ensures forall other, r :: Listed(Discarded(b, signature, token, reference), other, r)
              <==> Listed(b, other, r) && !(other == signature && r.token == token && r.reference == reference)
  {
    var b' := Discarded(b, signature, token, reference);
    DroppedMembers(In(b, signature), token, reference);
    var left := Dropped(In(b, signature), token, reference);
    assert In(b', signature) == left;
    forall other, r
      ensures Listed(b', other, r)
              <==> Listed(b, other, r) && !(other == signature && r.token == token && r.reference == reference)
    {
      if other == signature {
        assert Listed(b', other, r) <==> r in left;
      } else {
        assert In(b', other) == In(b, other);
      }
    }
  }

  // Nothing new, and no registration lost whose live record still holds the signature.
  ghost predicate Pruned(digest: seq<int> -> nat, w: World, b: Buckets, b': Buckets) {
    && (forall signature, r :: Listed(b', signature, r) ==> Listed(b, signature, r))
    && (forall signature, r :: Listed(b, signature, r) && Holds(digest, w, r.owner, signature) ==>
          Listed(b', signature, r))
  }

  // From (w, b) to (w', b') only deaths, late callbacks and pruning have happened.
  ghost predicate Faded(digest: seq<int> -> nat, w: World, b: Buckets, w': World, b': Buckets) {
    Fewer(w, w') && Pruned(digest, w', b, b')
  }

  lemma FewerHolds(digest: seq<int> -> nat, w: World, w': World, owner: nat)
    requires Fewer(w, w')
    ensures Values(w', owner) == Values(w, owner) || Values(w', owner) == []
    ensures forall signature :: Holds(digest, w', owner, signature) ==> Holds(digest, w, owner, signature)
    ensures forall value :: HoldsEqual(w', owner, value) ==> HoldsEqual(w, owner, value)
  {
  }

  lemma FadedFurther(digest: seq<int> -> nat, w0: World, b0: Buckets, w1: World, b1: Buckets, w2: World, b2: Buckets)
    requires Faded(digest, w0, b0, w1, b1) && Faded(digest, w1, b1, w2, b2)
    ensures Faded(digest, w0, b0, w2, b2)
  {
    forall signature, r | Listed(b0, signature, r) && Holds(digest, w2, r.owner, signature)
      ensures Listed(b2, signature, r)
    {
      FewerHolds(digest, w1, w2, r.owner);
    }
  }

  lemma EqualHolds(digest: seq<int> -> nat, w: World, owner: nat, value: Value, signature: Signature)
    requires HoldsEqual(w, owner, value) && SignatureOf(digest, value) == Some(signature)
    ensures Holds(digest, w, owner, signature)
  {
    var k :| 0 <= k < |Values(w, owner)| && Same(Values(w, owner)[k], value);
    SameSignature(digest, Values(w, owner)[k], value);
  }

  // found is the value of a live record registered in the signature's bucket.
  ghost predicate Held(b: Buckets, w: World, signature: Signature, value: Value, found: Value) {
    exists r :: Listed(b, signature, r) && Same(found, value) && found in Values(w, r.owner)
  }

  // Records may have died, and values of one dictionary been replaced by equal ones.
  ghost predicate Edited(w: World, w': World, d: nat) {
    && w'.dictionaries.Keys == w.dictionaries.Keys
    && (forall o :: o in w'.records ==> o in w.records && w'.records[o] == w.records[o])
    && (forall e :: e in w.dictionaries && e != d ==> w'.dictionaries[e] == w.dictionaries[e])
    && (d in w.dictionaries ==> Equivalent(w.dictionaries[d], w'.dictionaries[d]))
  }

  // The same values at the same keys, up to object identity.
  ghost predicate Equivalent(a: seq<Value>, b: seq<Value>) {
    |b| == |a| && forall k :: 0 <= k < |a| ==> b[k] == a[k] || Same(b[k], a[k])
  }

  lemma EditedHolds(digest: seq<int> -> nat, w: World, w': World, d: nat, owner: nat, signature: Signature)
    requires Edited(w, w', d) && Holds(digest, w', owner, signature)
    ensures Holds(digest, w, owner, signature)
  {
    var k :| 0 <= k < |Values(w', owner)| && SignatureOf(digest, Values(w', owner)[k]) == Some(signature);
    assert SignatureOf(digest, Values(w, owner)[k]) == Some(signature);
  }

  lemma EditedStillHolds(digest: seq<int> -> nat, w: World, w': World, d: nat, owner: nat, signature: Signature)
    requires Edited(w, w', d) && owner in w'.records && Holds(digest, w, owner, signature)
    ensures Holds(digest, w', owner, signature)
  {
    var k :| 0 <= k < |Values(w, owner)| && SignatureOf(digest, Values(w, owner)[k]) == Some(signature);
    assert SignatureOf(digest, Values(w', owner)[k]) == Some(signature);
  }

  lemma EditedFurther(w0: World, w1: World, w2: World, d: nat)
    requires Edited(w0, w1, d) && Edited(w1, w2, d)
    ensures Edited(w0, w2, d)
  {
  }

  function Stored(w: World, d: nat, k: nat, found: Value): World
    requires d in w.dictionaries && k < |w.dictionaries[d]|
  {
    w.(dictionaries := w.dictionaries[d := w.dictionaries[d][k := found]])
  }

  lemma StoredEdited(w: World, w': World, d: nat, k: nat, found: Value)
    requires Fewer(w, w') && d in w.dictionaries && k < |w.dictionaries[d]|
    requires found == w.dictionaries[d][k] || Same(found, w.dictionaries[d][k])
    ensures Edited(w, Stored(w', d, k, found), d) && Edited(w', Stored(w', d, k, found), d)
  {
  }

  // No registration is lost whose live record still holds the signature, and new ones are
  // all for the given owner.
  ghost predicate Grown(digest: seq<int> -> nat, w: World, b: Buckets, b': Buckets, owner: nat) {
    && (forall signature, r :: Listed(b', signature, r) ==> Listed(b, signature, r) || r.owner == owner)
    && (forall signature, r :: Listed(b, signature, r) && Holds(digest, w, r.owner, signature) ==>
          Listed(b', signature, r))
  }

  lemma GrownFurther(digest: seq<int> -> nat, b0: Buckets, w1: World, b1: Buckets, w2: World, b2: Buckets,
                     d: nat, owner: nat)
    requires Grown(digest, w1, b0, b1, owner) && Edited(w1, w2, d) && Grown(digest, w2, b1, b2, owner)
    ensures Grown(digest, w2, b0, b2, owner)
  {
    forall signature, r | Listed(b0, signature, r) && Holds(digest, w2, r.owner, signature)
      ensures Listed(b2, signature, r)
    {
      EditedHolds(digest, w1, w2, d, r.owner, signature);
    }
  }

  lemma PrunedGrown(digest: seq<int> -> nat, w: World, b: Buckets, b': Buckets, w': World, d: nat, owner: nat)
    requires Pruned(digest, w, b, b') && Edited(w, w', d)
    ensures Grown(digest, w', b, b', owner)
  {
    forall signature, r | Listed(b, signature, r) && Holds(digest, w', r.owner, signature)
      ensures Listed(b', signature, r)
    {
      EditedHolds(digest, w, w', d, r.owner, signature);
    }
  }

  // Every known signature is held by the record and registered for it.
  ghost predicate Covered(digest: seq<int> -> nat, w: World, b: Buckets, owner: nat, known: set<Signature>) {
    forall signature :: signature in known ==>
      Registered(b, signature, owner) && Holds(digest, w, owner, signature)
  }

  lemma CoveredKeeps(digest: seq<int> -> nat, w: World, b: Buckets, w': World, b': Buckets, d: nat, owner: nat,
                     known: set<Signature>)
    requires Covered(digest, w, b, owner, known) && Edited(w, w', d) && owner in w'.records
    requires Grown(digest, w', b, b', owner)
    ensures Covered(digest, w', b', owner, known)
  {
    forall signature | signature in known
      ensures Registered(b', signature, owner) && Holds(digest, w', owner, signature)
    {
      EditedStillHolds(digest, w, w', d, owner, signature);
      var r :| Listed(b, signature, r) && r.owner == owner;
      assert Listed(b', signature, r);
    }
  }

  ghost predicate Registered(b: Buckets, signature: Signature, owner: nat) {
    exists r :: Listed(b, signature, r) && r.owner == owner
  }

  // Each token belongs to one registration of one bucket, where it keeps its place in order.
  ghost predicate Tokens(b: Buckets, next: nat) {
    && (forall signature, r :: Listed(b, signature, r) ==> r.token < next)
    && (forall signature, r, other, q ::
          Listed(b, signature, r) && Listed(b, other, q) && r.token == q.token ==> signature == other && r == q)
    && (forall signature :: Sorted(In(b, signature)))
  }

  lemma DiscardedTokens(b: Buckets, next: nat, signature: Signature, token: nat, reference: nat)
    requires Tokens(b, next)
    ensures Tokens(Discarded(b, signature, token, reference), next)
  {
    var b' := Discarded(b, signature, token, reference);
    DiscardedMembers(b, signature, token, reference);
    forall other ensures Sorted(In(b', other)) {
      if other == signature { DroppedSorted(In(b, signature), token, reference); }
      else { assert In(b', other) == In(b, other); }
    }
  }

  lemma RegisteredTokens(b: Buckets, next: nat, signature: Signature, owner: nat)
    requires Tokens(b, next)
    ensures Tokens(b[signature := In(b, signature) + [Registration(next, next, owner)]], next + 1)
  {
    var registration := Registration(next, next, owner);
    var b' := b[signature := In(b, signature) + [registration]];
    forall other, r ensures Listed(b', other, r) <==> Listed(b, other, r) || (other == signature && r == registration) {
      if other != signature { assert In(b', other) == In(b, other); }
    }
    forall other ensures Sorted(In(b', other)) {
      if other == signature { RegisteredSorted(b, next, signature, registration); }
      else { assert In(b', other) == In(b, other); }
    }
  }

  lemma RegisteredSorted(b: Buckets, next: nat, signature: Signature, registration: Registration)
    requires Tokens(b, next) && registration.token == next
    ensures Sorted(In(b, signature) + [registration])
  {
    var s := In(b, signature);
    assert Sorted(s);
    forall i | 0 <= i < |s| ensures s[i].token < next { assert Listed(b, signature, s[i]); }
  }

  lemma OneOfToken(b: Buckets, b': Buckets, next: nat, signature: Signature, r: Registration)
    requires Tokens(b, next) && Listed(b, signature, r)
    requires forall other, q :: Listed(b', other, q) ==> Listed(b, other, q)
    ensures forall q :: Listed(b', signature, q) && q.token == r.token ==> q == r
  {
  }

  // ---------- the first match of a lookup ----------

  // found is the value of a listed record, and no record listed before it holds an equal
  // value that is still alive in w'.
  ghost predicate FoundAt(s: seq<Registration>, i: nat, w: World, w': World, value: Value, found: Value)
    requires i < |s|
  {
    && Same(found, value) && found in Values(w, s[i].owner)
    && NoneBefore(s, i, w', value)
  }

  // None of the first n registrations holds an equal value.
  ghost predicate NoneBefore(s: seq<Registration>, n: nat, w: World, value: Value)
    requires n <= |s|
  {
    forall j :: 0 <= j < n ==> !HoldsEqual(w, s[j].owner, value)
  }

  lemma NoneLater(digest: seq<int> -> nat, s: seq<Registration>, n: nat, w: World, w': World, value: Value)
    requires n <= |s| && NoneBefore(s, n, w, value) && Fewer(w, w')
    ensures NoneBefore(s, n, w', value)
  {
    forall j | 0 <= j < n ensures !HoldsEqual(w', s[j].owner, value) { FewerHolds(digest, w, w', s[j].owner); }
  }

  ghost predicate FirstFound(s: seq<Registration>, w: World, w': World, value: Value, found: Value) {
    exists i: nat :: i < |s| && FoundAt(s, i, w, w', value, found)
  }

  // The first match after deaths and pruning is the first that survived them.
  lemma FirstEarlier(digest: seq<int> -> nat, w: World, b: Buckets, w1: World, b1: Buckets, w': World,
                     next: nat, signature: Signature, value: Value, found: Value)
    requires Faded(digest, w, b, w1, b1) && Fewer(w1, w') && Tokens(b, next) && Tokens(b1, next)
    requires SignatureOf(digest, value) == Some(signature)
    requires FirstFound(In(b1, signature), w1, w', value, found)
    ensures FirstFound(In(b, signature), w, w', value, found)
  {
    var s, s1 := In(b, signature), In(b1, signature);
    var i: nat :| i < |s1| && FoundAt(s1, i, w1, w', value, found);
    var r := s1[i];
    assert Listed(b1, signature, r) && Listed(b, signature, r);
    var k: nat :| k < |s| && s[k] == r;
    FewerHolds(digest, w, w1, r.owner);
    forall j | 0 <= j < k ensures !HoldsEqual(w', s[j].owner, value) {
      EarlierGone(digest, b, w1, b1, w', next, signature, value, i, j, k);
    }
    assert FoundAt(s, k, w, w', value, found);
  }

  // If no registration left holds an equal value, none that there was does.
  lemma NoneAvailable(digest: seq<int> -> nat, b: Buckets, w1: World, b1: Buckets, w': World,
                      signature: Signature, value: Value)
    requires Pruned(digest, w1, b, b1) && Fewer(w1, w') && SignatureOf(digest, value) == Some(signature)
    requires forall r :: r in In(b1, signature) ==> !HoldsEqual(w', r.owner, value)
    ensures !Available(b, w', signature, value)
  {
    forall r | Listed(b, signature, r) ensures !HoldsEqual(w', r.owner, value) {
      if HoldsEqual(w', r.owner, value) {
        FewerHolds(digest, w1, w', r.owner);
        EqualHolds(digest, w1, r.owner, value, signature);
      }
    }
  }

  lemma EarlierGone(digest: seq<int> -> nat, b: Buckets, w1: World, b1: Buckets, w': World, next: nat,
                    signature: Signature, value: Value, i: nat, j: nat, k: nat)
    requires Pruned(digest, w1, b, b1) && Fewer(w1, w') && Tokens(b, next) && Tokens(b1, next)
    requires SignatureOf(digest, value) == Some(signature)
    requires j < k < |In(b, signature)| && i < |In(b1, signature)| && In(b, signature)[k] == In(b1, signature)[i]
    requires forall m :: 0 <= m < i ==> !HoldsEqual(w', In(b1, signature)[m].owner, value)
    ensures !HoldsEqual(w', In(b, signature)[j].owner, value)
  {
    var q := In(b, signature)[j];
    assert Sorted(In(b, signature)) && Sorted(In(b1, signature));
    assert Listed(b, signature, q);
    if Listed(b1, signature, q) {
      var m: nat :| m < |In(b1, signature)| && In(b1, signature)[m] == q;
      assert m < i;
    } else if HoldsEqual(w', q.owner, value) {
      FewerHolds(digest, w1, w', q.owner);
      EqualHolds(digest, w1, q.owner, value, signature);
    }
  }

  // ---------- what a value is replaced by ----------

  lemma EditedHoldsEqual(w: World, w': World, d: nat, owner: nat, value: Value)
    requires Edited(w, w', d) && HoldsEqual(w', owner, value)
    ensures HoldsEqual(w, owner, value)
  {
    var k :| 0 <= k < |Values(w', owner)| && Same(Values(w', owner)[k], value);
    assert Same(Values(w, owner)[k], value);
  }

  ghost predicate Available(b: Buckets, w: World, signature: Signature, value: Value) {
    exists r :: Listed(b, signature, r) && HoldsEqual(w, r.owner, value)
  }

  // What a lookup that begins at (w, b) and ends in world w' answers: the first match, and
  // the value itself only if none is alive.
  ghost predicate Answer(w: World, b: Buckets, w': World, signature: Signature, value: Value, found: Value) {
    || FirstFound(In(b, signature), w, w', value, found)
    || (found == value && !Available(b, w', signature, value))
  }

  lemma AnswerLater(w: World, b: Buckets, w1: World, w2: World, d: nat, signature: Signature, value: Value,
                    found: Value)
    requires Answer(w, b, w1, signature, value, found) && Edited(w1, w2, d)
    ensures Answer(w, b, w2, signature, value, found)
  {
    forall o | HoldsEqual(w2, o, value) ensures HoldsEqual(w1, o, value) { EditedHoldsEqual(w1, w2, d, o, value); }
    var s := In(b, signature);
    if FirstFound(s, w, w1, value, found) {
      var i: nat :| i < |s| && FoundAt(s, i, w, w1, value, found);
      assert FoundAt(s, i, w, w2, value, found);
    }
  }

  // What key k holds in w, given the world and the index before the record was made: an
  // object that was there before, in the bundle or in a registered record; and if an equal
  // value of a registered record is still alive, an object of a registered record.
  ghost predicate SharedAt(digest: seq<int> -> nat, w0: World, b0: Buckets, w: World, d: nat, k: nat)
    requires d in w0.dictionaries && d in w.dictionaries && k < |w0.dictionaries[d]| == |w.dictionaries[d]|
  {
    var value, stored := w0.dictionaries[d][k], w.dictionaries[d][k];
    match SignatureOf(digest, value)
    case None => stored == value
    case Some(signature) =>
      && (stored in w0.dictionaries[d] || Held(b0, w0, signature, value, stored))
      && (Available(b0, w, signature, value) ==> Held(b0, w0, signature, value, stored))
  }

  lemma SharedKeeps(digest: seq<int> -> nat, w0: World, b0: Buckets, w: World, w': World, d: nat, k: nat)
    requires d in w0.dictionaries && d in w.dictionaries && k < |w0.dictionaries[d]| == |w.dictionaries[d]|
    requires SharedAt(digest, w0, b0, w, d, k) && Edited(w, w', d) && w'.dictionaries[d][k] == w.dictionaries[d][k]
    ensures SharedAt(digest, w0, b0, w', d, k)
  {
    var value := w0.dictionaries[d][k];
    var signature := SignatureOf(digest, value);
    if signature.Some? && Available(b0, w', signature.value, value) {
      var r :| Listed(b0, signature.value, r) && HoldsEqual(w', r.owner, value);
      EditedHoldsEqual(w, w', d, r.owner, value);
      assert Available(b0, w, signature.value, value);
    }
  }

  // Beyond the old index only the new record is registered, under later tokens.
  ghost predicate NewOnly(b0: Buckets, b: Buckets, owner: nat, next: nat) {
    forall signature, r :: Listed(b, signature, r) ==>
      Listed(b0, signature, r) || (r.owner == owner && r.token >= next)
  }

  // How far the record has got: keys before n are done, the others untouched. next is the
  // first token given out since.
  ghost predicate Sharing(digest: seq<int> -> nat, w0: World, b0: Buckets, w: World, b: Buckets, d: nat, owner: nat,
                          next: nat, n: nat) {
    && d in w0.dictionaries && Edited(w0, w, d) && n <= |w0.dictionaries[d]|
    && owner in w.records && w.records[owner] == Dictionary(d)
    && NewOnly(b0, b, owner, next) && Tokens(b0, next)
    && (forall j :: n <= j < |w0.dictionaries[d]| ==> w.dictionaries[d][j] == w0.dictionaries[d][j])
    && forall j :: 0 <= j < n ==> SharedAt(digest, w0, b0, w, d, j)
  }

  // An equal object stored under an earlier key was there at the beginning too.
  lemma EarlierKey(digest: seq<int> -> nat, w0: World, b0: Buckets, w: World, d: nat, i: nat, n: nat,
                   signature: Signature, value: Value)
    requires d in w0.dictionaries && Edited(w0, w, d) && i < n < |w0.dictionaries[d]|
    requires value == w0.dictionaries[d][n] && SignatureOf(digest, value) == Some(signature)
    requires SharedAt(digest, w0, b0, w, d, i) && Same(w.dictionaries[d][i], value)
    ensures var found := w.dictionaries[d][i];
            found in w0.dictionaries[d] || Held(b0, w0, signature, value, found)
  {
    var found, earlier := w.dictionaries[d][i], w0.dictionaries[d][i];
    assert Equivalent(w0.dictionaries[d], w.dictionaries[d]);
    SameSignature(digest, found, value);
    if Same(found, earlier) { SameSignature(digest, found, earlier); }
    assert SignatureOf(digest, earlier) == Some(signature);
    if Held(b0, w0, signature, earlier, found) {
      var r :| Listed(b0, signature, r) && Same(found, earlier) && found in Values(w0, r.owner);
      assert Held(b0, w0, signature, value, found);
    }
  }

  // An object held in the middle of the work by r's record was there at its beginning, and
  // if r was registered then, in a record registered then.
  lemma HeldFromStart(digest: seq<int> -> nat, w0: World, b0: Buckets, w: World, b: Buckets, d: nat, owner: nat,
                      next: nat, n: nat, signature: Signature, value: Value, found: Value, r: Registration)
    requires Sharing(digest, w0, b0, w, b, d, owner, next, n) && n < |w0.dictionaries[d]|
    requires value == w0.dictionaries[d][n] && SignatureOf(digest, value) == Some(signature)
    requires Listed(b, signature, r) && Same(found, value) && found in Values(w, r.owner)
    ensures found in w0.dictionaries[d] || Held(b0, w0, signature, value, found)
    ensures Listed(b0, signature, r) ==> Held(b0, w0, signature, value, found)
  {
    var i :| 0 <= i < |Values(w, r.owner)| && Values(w, r.owner)[i] == found;
    if w.records[r.owner] == Dictionary(d) {
      if i < n { EarlierKey(digest, w0, b0, w, d, i, n, signature, value); }
      else { assert found == w0.dictionaries[d][i]; }
      if found in w0.dictionaries[d] { assert found in Values(w0, r.owner); }
    } else {
      assert Values(w0, r.owner)[i] == found;
      assert found in Values(w0, r.owner);
    }
  }

  // The surviving old registrations come first, so while one holds an equal value the first
  // match is an old one.
  lemma OldComesFirst(b0: Buckets, b: Buckets, owner: nat, next: nat, now: nat, signature: Signature, i: nat, k: nat)
    requires NewOnly(b0, b, owner, next) && Tokens(b0, next) && Tokens(b, now)
    requires i <= k < |In(b, signature)| && Listed(b0, signature, In(b, signature)[k])
    ensures Listed(b0, signature, In(b, signature)[i])
  {
    var s := In(b, signature);
    assert Sorted(s) && Listed(b, signature, s[i]);
    assert s[i].token <= s[k].token < next;
  }

  // An answer for key n, found in the middle of the work, is right for the whole of it.
  lemma AnswerShares(digest: seq<int> -> nat, w0: World, b0: Buckets, w: World, b: Buckets, w': World, d: nat,
                     owner: nat, next: nat, now: nat, n: nat, signature: Signature)
    requires Sharing(digest, w0, b0, w, b, d, owner, next, n) && n < |w0.dictionaries[d]|
    requires Tokens(b, now) && Edited(w, w', d) && Grown(digest, w', b0, b, owner)
    requires SignatureOf(digest, w0.dictionaries[d][n]) == Some(signature)
    requires Answer(w, b, w', signature, w0.dictionaries[d][n], w'.dictionaries[d][n])
    ensures SharedAt(digest, w0, b0, w', d, n)
  {
    var value, found := w0.dictionaries[d][n], w'.dictionaries[d][n];
    var s := In(b, signature);
    if FirstFound(s, w, w', value, found) {
      var i: nat :| i < |s| && FoundAt(s, i, w, w', value, found);
      assert Listed(b, signature, s[i]);
      HeldFromStart(digest, w0, b0, w, b, d, owner, next, n, signature, value, found, s[i]);
    }
    if Available(b0, w', signature, value) {
      var r :| Listed(b0, signature, r) && HoldsEqual(w', r.owner, value);
      EqualHolds(digest, w', r.owner, value, signature);
      assert Listed(b, signature, r);
      var k: nat :| k < |s| && s[k] == r;
      var i: nat :| i < |s| && FoundAt(s, i, w, w', value, found);
      OldComesFirst(b0, b, owner, next, now, signature, i, k);
      HeldFromStart(digest, w0, b0, w, b, d, owner, next, n, signature, value, found, s[i]);
    }
  }

  lemma SharingStep(digest: seq<int> -> nat, w0: World, b0: Buckets, w: World, b: Buckets, w': World, b': Buckets,
                    d: nat, owner: nat, next: nat, n: nat)
    requires Sharing(digest, w0, b0, w, b, d, owner, next, n) && n < |w0.dictionaries[d]|
    requires Edited(w, w', d) && owner in w'.records
    requires w'.dictionaries[d] == w.dictionaries[d][n := w'.dictionaries[d][n]]
    requires SharedAt(digest, w0, b0, w', d, n)
    requires forall other, r :: Listed(b', other, r) ==> Listed(b, other, r) || (r.owner == owner && r.token >= next)
    ensures Sharing(digest, w0, b0, w', b', d, owner, next, n + 1)
  {
    EditedFurther(w0, w, w', d);
    forall j | 0 <= j < n ensures SharedAt(digest, w0, b0, w', d, j) {
      SharedKeeps(digest, w0, b0, w, w', d, j);
    }
  }

  // Before the record was made it held nothing for anybody.
  lemma SharedBefore(digest: seq<int> -> nat, w: World, owner: nat, d: nat, b0: Buckets, w': World, k: nat)
    requires owner !in w.records && forall signature, r :: Listed(b0, signature, r) ==> r.owner != owner
    requires d in w.dictionaries && d in w'.dictionaries && k < |w.dictionaries[d]| == |w'.dictionaries[d]|
    requires SharedAt(digest, w.(records := w.records[owner := Dictionary(d)]), b0, w', d, k)
    ensures SharedAt(digest, w, b0, w', d, k)
  {
    var w0 := w.(records := w.records[owner := Dictionary(d)]);
    var value, found := w.dictionaries[d][k], w'.dictionaries[d][k];
    var signature := SignatureOf(digest, value);
    if signature.Some? && Held(b0, w0, signature.value, value, found) {
      var r :| Listed(b0, signature.value, r) && Same(found, value) && found in Values(w0, r.owner);
      assert found in Values(w, r.owner);
    }
  }

  // ---------- sharing, said of the values themselves ----------

  // The record is registered for everything it holds.
  ghost predicate FullyRegistered(digest: seq<int> -> nat, b: Buckets, w: World, owner: nat) {
    forall signature :: Holds(digest, w, owner, signature) ==> Registered(b, signature, owner)
  }

  // An equal object that some registered record held.
  ghost predicate HeldByRegistered(b: Buckets, w: World, value: Value, found: Value) {
    Same(found, value) && exists signature, r :: Listed(b, signature, r) && found in Values(w, r.owner)
  }

  // Every string and every bytes value is stored as an object that some registered record
  // held before, if a fully registered record that is still alive holds an equal one; a value
  // of any other type stays.
  ghost predicate SharedPlainly(digest: seq<int> -> nat, w0: World, b0: Buckets, w: World, value: Value,
                                stored: Value)
  {
    && (value.Foreign? ==> stored == value)
    && (value.Plain? ==> forall o ::
          o in w0.records && FullyRegistered(digest, b0, w0, o) && HoldsEqual(w, o, value) ==>
            HeldByRegistered(b0, w0, value, stored))
  }

  lemma SharesPlainly(digest: seq<int> -> nat, w0: World, b0: Buckets, w: World, d: nat, k: nat)
    requires d in w0.dictionaries && d in w.dictionaries && k < |w0.dictionaries[d]| == |w.dictionaries[d]|
    requires SharedAt(digest, w0, b0, w, d, k)
    requires forall o, value :: o in w0.records && HoldsEqual(w, o, value) ==> HoldsEqual(w0, o, value)
    ensures SharedPlainly(digest, w0, b0, w, w0.dictionaries[d][k], w.dictionaries[d][k])
  {
    var value, stored := w0.dictionaries[d][k], w.dictionaries[d][k];
    if value.Plain? {
      var signature := SignatureOf(digest, value).value;
      forall o | o in w0.records && FullyRegistered(digest, b0, w0, o) && HoldsEqual(w, o, value)
        ensures HeldByRegistered(b0, w0, value, stored)
      {
        EqualHolds(digest, w0, o, value, signature);
        var r :| Listed(b0, signature, r) && r.owner == o;
        assert Available(b0, w, signature, value);
        var q :| Listed(b0, signature, q) && Same(stored, value) && stored in Values(w0, q.owner);
      }
    }
  }

  // A record that has been there all the time stays fully registered.
  lemma StaysRegistered(digest: seq<int> -> nat, w0: World, b0: Buckets, w: World, b: Buckets, owner: nat, o: nat)
    requires FullyRegistered(digest, b0, w0, o) && Grown(digest, w, b0, b, owner)
    requires forall signature :: Holds(digest, w, o, signature) ==> Holds(digest, w0, o, signature)
    ensures FullyRegistered(digest, b, w, o)
  {
    forall signature | Holds(digest, w, o, signature) ensures Registered(b, signature, o) {
      var r :| Listed(b0, signature, r) && r.owner == o;
      assert Listed(b, signature, r);
    }
  }

  // What an older record holds afterwards it held, up to equality, before.
  lemma OlderHeld(digest: seq<int> -> nat, w: World, owner: nat, d: nat, w': World, o: nat)
    requires owner !in w.records && o in w.records
    requires Edited(w.(records := w.records[owner := Dictionary(d)]), w', d)
    ensures forall value :: HoldsEqual(w', o, value) ==> HoldsEqual(w, o, value)
    ensures forall signature :: Holds(digest, w', o, signature) ==> Holds(digest, w, o, signature)
  {
    var w0 := w.(records := w.records[owner := Dictionary(d)]);
    assert Values(w0, o) == Values(w, o);
    forall value | HoldsEqual(w', o, value) ensures HoldsEqual(w, o, value) { EditedHoldsEqual(w0, w', d, o, value); }
    forall signature | Holds(digest, w', o, signature) ensures Holds(digest, w, o, signature) {
      EditedHolds(digest, w0, w', d, o, signature);
    }
  }

  // What may happen whenever no lock-protected step is in progress: records die, and weak
  // callbacks of dead records are delivered, late, repeatedly or never.
  datatype Callback = Callback(signature: Signature, token: nat, reference: nat)

  datatype Interruption = Interruption(dead: set<nat>, callbacks: seq<Callback>)

  class MimeHistory {
    const digest: seq<int> -> nat
    var buckets: Buckets
    var nextToken: nat
    var world: World

    ghost predicate Valid() reads this { Tokens(buckets, nextToken) }

    constructor (digest: seq<int> -> nat, world: World)
      ensures Valid() && this.digest == digest && buckets == map[] && nextToken == 0 && this.world == world
    {
      this.digest, this.buckets, this.nextToken, this.world := digest, map[], 0, world;
    }

    method Discard(signature: Signature, token: nat, reference: nat)
      requires Valid()
      modifies this`buckets
      ensures Valid() && buckets == Discarded(old(buckets), signature, token, reference)
    {
      DiscardedTokens(buckets, nextToken, signature, token, reference);
      if signature in buckets {
        var left := Dropped(buckets[signature], token, reference);
        buckets := if left == [] then buckets - {signature} else buckets[signature := left];
      }
      assert buckets == Discarded(old(buckets), signature, token, reference);
    }

    // A weak callback fires only for a record that is gone.
    method Interrupt(event: Interruption, pinned: set<nat>)
      requires Valid()
      modifies this`buckets, this`world
      ensures Valid() && Faded(digest, old(world), old(buckets), world, buckets)
      ensures forall o :: o in pinned && o in old(world).records ==> o in world.records
    {
      world := world.(records := map o | o in world.records && (o in pinned || o !in event.dead) :: world.records[o]);
      ghost var survivors := world;
      for k := 0 to |event.callbacks|
        invariant world == survivors
        invariant Valid() && Pruned(digest, world, old(buckets), buckets)
      {
        var c := event.callbacks[k];
        var matching := set r | r in In(buckets, c.signature) && r.token == c.token && r.reference == c.reference;
        if forall r :: r in matching ==> r.owner !in world.records {
          DiscardedMembers(buckets, c.signature, c.token, c.reference);
          Discard(c.signature, c.token, c.reference);
        }
      }
    }

    method Candidate(signature: Signature, r: Registration, value: Value) returns (found: Option<Value>)
      requires Valid() && SignatureOf(digest, value) == Some(signature)
      requires forall q :: Listed(buckets, signature, q) && q.token == r.token ==> q == r
      modifies this`buckets
      ensures Valid() && Pruned(digest, world, old(buckets), buckets)
      ensures found.Some? <==> HoldsEqual(world, r.owner, value)
      ensures found.Some? ==>
                found.value in Values(world, r.owner) && Same(found.value, value) && buckets == old(buckets)
      ensures found.None? && !Holds(digest, world, r.owner, signature) ==> !Listed(buckets, signature, r)
    {
      var current := false;
      var values := Values(world, r.owner);
      for k := 0 to |values|
        invariant buckets == old(buckets)
        invariant forall i :: 0 <= i < k ==> !Same(values[i], value)
        invariant current <==> exists i :: 0 <= i < k && SignatureOf(digest, values[i]) == Some(signature)
      {
        if Same(values[k], value) { return Some(values[k]); }
        if SignatureOf(digest, values[k]) == Some(signature) { current := true; }
      }
      DiscardedMembers(buckets, signature, r.token, r.reference);
      if !current {
        Discard(signature, r.token, r.reference);
      }
      return None;
    }

    // One registration of a copied bucket, which may be gone by now.
    method TryNext(signature: Signature, r: Registration, value: Value, event: Interruption, pinned: set<nat>,
                   ghost w0: World, ghost b0: Buckets) returns (found: Option<Value>)
      requires Valid() && SignatureOf(digest, value) == Some(signature)
      requires Faded(digest, w0, b0, world, buckets) && Tokens(b0, nextToken) && Listed(b0, signature, r)
      modifies this`buckets, this`world
      ensures Valid() && Faded(digest, w0, b0, world, buckets) && Fewer(old(world), world)
      ensures forall o :: o in pinned && o in old(world).records ==> o in world.records
      ensures found.Some? <==> HoldsEqual(world, r.owner, value)
      ensures found.Some? ==> Same(found.value, value) && found.value in Values(w0, r.owner)
    {
      ghost var w1, b1 := world, buckets;
      Interrupt(event, pinned);
      FadedFurther(digest, w0, b0, w1, b1, world, buckets);
      ghost var b2 := buckets;
      OneOfToken(b0, buckets, nextToken, signature, r);
      found := Candidate(signature, r, value);
      FadedFurther(digest, w0, b0, world, b2, world, buckets);
      FewerHolds(digest, w0, world, r.owner);
    }

    // The copied registrations in turn, with an interruption before each.
    method Search(copy: seq<Registration>, signature: Signature, value: Value, events: nat -> Interruption,
                  pinned: set<nat>) returns (found: Option<Value>)
      requires Valid() && SignatureOf(digest, value) == Some(signature)
      requires forall r :: r in copy ==> Listed(buckets, signature, r)
      modifies this`buckets, this`world
      ensures Valid() && Faded(digest, old(world), old(buckets), world, buckets)
      ensures forall o :: o in pinned && o in old(world).records ==> o in world.records
      ensures found.Some? ==> FirstFound(copy, old(world), world, value, found.value)
      ensures found.None? ==> NoneBefore(copy, |copy|, world, value)
    {
      ghost var w0, b0 := world, buckets;
      for k := 0 to |copy|
        invariant Valid() && Faded(digest, w0, b0, world, buckets)
        invariant forall o :: o in pinned && o in w0.records ==> o in world.records
        invariant NoneBefore(copy, k, world, value)
      {
        ghost var w1 := world;
        var candidate := TryNext(signature, copy[k], value, events(k + 2), pinned, w0, b0);
        NoneLater(digest, copy, k, w1, world, value);
        if candidate.Some? {
          assert FoundAt(copy, k, w0, world, value, candidate.value);
          return candidate;
        }
      }
      return None;
    }

    // Records may die and callbacks come before the lookup and between its candidates.
    method Find(signature: Signature, value: Value, events: nat -> Interruption, pinned: set<nat>)
      returns (found: Value)
      requires Valid() && SignatureOf(digest, value) == Some(signature)
      modifies this`buckets, this`world
      ensures Valid() && Faded(digest, old(world), old(buckets), world, buckets)
      ensures forall o :: o in pinned && o in old(world).records ==> o in world.records
      ensures Answer(old(world), old(buckets), world, signature, value, found)
    {
      ghost var w0, b0 := world, buckets;
      Interrupt(events(0), pinned);
      ghost var w1, b1 := world, buckets;
      var bucket := In(buckets, signature);
      if bucket == [] {
        NoneAvailable(digest, b0, w1, b1, w1, signature, value);
        return value;
      }
      assert Listed(b1, signature, bucket[0]);
      var candidate := Candidate(signature, bucket[0], value);
      FadedFurther(digest, w0, b0, w1, b1, world, buckets);
      if candidate.Some? {
        assert FoundAt(bucket, 0, w1, world, value, candidate.value);
        FirstEarlier(digest, w0, b0, w1, b1, world, nextToken, signature, value, candidate.value);
        return candidate.value;
      }
      ghost var w2, b2 := world, buckets;
      Interrupt(events(1), pinned);
      FadedFurther(digest, w0, b0, w2, b2, world, buckets);
      ghost var w3, b3 := world, buckets;
      var copy := In(buckets, signature);
      candidate := Search(copy, signature, value, events, pinned);
      FadedFurther(digest, w0, b0, w3, b3, world, buckets);
      if candidate.Some? {
        FirstEarlier(digest, w0, b0, w3, b3, world, nextToken, signature, value, candidate.value);
        return candidate.value;
      }
      NoneAvailable(digest, b0, w3, b3, world, signature, value);
      return value;
    }

    method Register(signature: Signature, owner: nat)
      requires Valid()
      modifies this`buckets, this`nextToken
      ensures Valid() && nextToken == old(nextToken) + 1
      ensures buckets == old(buckets)[signature := In(old(buckets), signature)
                                                   + [Registration(old(nextToken), old(nextToken), owner)]]
    {
      RegisteredTokens(buckets, nextToken, signature, owner);
      var registration := Registration(nextToken, nextToken, owner);
      buckets := buckets[signature := In(buckets, signature) + [registration]];
      nextToken := nextToken + 1;
    }

    // Looks the value of one key up and stores what was found.
    method ShareValue(d: nat, owner: nat, k: nat, signature: Signature, events: nat -> Interruption)
      requires Valid() && owner in world.records
      requires d in world.dictionaries && k < |world.dictionaries[d]|
      requires SignatureOf(digest, world.dictionaries[d][k]) == Some(signature)
      modifies this`buckets, this`world
      ensures Valid() && Edited(old(world), world, d) && Grown(digest, world, old(buckets), buckets, owner)
      ensures owner in world.records && d in world.dictionaries && k < |world.dictionaries[d]|
      ensures world.dictionaries[d] == old(world).dictionaries[d][k := world.dictionaries[d][k]]
      ensures Answer(old(world), old(buckets), world, signature,
                     old(world).dictionaries[d][k], world.dictionaries[d][k])
      ensures forall other, r :: Listed(buckets, other, r) ==> Listed(old(buckets), other, r)
      ensures SignatureOf(digest, world.dictionaries[d][k]) == Some(signature)
    {
      ghost var w0, b0 := world, buckets;
      var value := world.dictionaries[d][k];
      var found := Find(signature, value, events, {owner});
      ghost var w1 := world;
      assert owner in {owner};
      StoredEdited(w0, w1, d, k, found);
      PrunedGrown(digest, w1, b0, buckets, Stored(w1, d, k, found), d, owner);
      world := world.(dictionaries := world.dictionaries[d := world.dictionaries[d][k := found]]);
      if found != value { SameSignature(digest, found, value); }
      AnswerLater(w0, b0, w1, world, d, signature, value, found);
    }

    method RegisterOnce(signature: Signature, owner: nat, known: set<Signature>) returns (known': set<Signature>)
      requires Valid() && Covered(digest, world, buckets, owner, known) && Holds(digest, world, owner, signature)
      modifies this`buckets, this`nextToken
      ensures Valid() && Grown(digest, world, old(buckets), buckets, owner)
      ensures known' == known + {signature} && Covered(digest, world, buckets, owner, known')
      ensures forall other, r :: Listed(buckets, other, r) ==>
                Listed(old(buckets), other, r) || (r.owner == owner && r.token >= old(nextToken))
      ensures nextToken >= old(nextToken)
    {
      known' := known + {signature};
      if signature in known { return; }
      ghost var registration := Registration(nextToken, nextToken, owner);
      Register(signature, owner);
      assert forall other, r :: Listed(buckets, other, r)
               <==> Listed(old(buckets), other, r) || (other == signature && r == registration);
      forall other | other in known' ensures Registered(buckets, other, owner) {
        if other == signature {
          assert Listed(buckets, other, registration);
        } else {
          var r :| Listed(old(buckets), other, r) && r.owner == owner;
          assert Listed(buckets, other, r);
        }
      }
    }

    // Every string or bytes value of the first n keys has a known signature.
    ghost predicate Seen(d: nat, n: nat, known: set<Signature>)
      reads this
      requires d in world.dictionaries && n <= |world.dictionaries[d]|
    {
      forall k :: 0 <= k < n ==>
        var signature := SignatureOf(digest, world.dictionaries[d][k]);
        signature.Some? ==> signature.value in known
    }

    // The new record of dictionary d has dealt with its first n keys.
    ghost predicate Recording(w0: World, b0: Buckets, d: nat, owner: nat, next: nat,
                              known: set<Signature>, n: nat)
      reads this
    {
      && Valid() && owner in world.records && d in world.dictionaries
      && Edited(w0, world, d) && Grown(digest, world, b0, buckets, owner)
      && Covered(digest, world, buckets, owner, known)
      && Sharing(digest, w0, b0, world, buckets, d, owner, next, n) && nextToken >= next
      && n <= |world.dictionaries[d]| == |w0.dictionaries[d]| && Seen(d, n, known)
    }

    method RecordKey(ghost w0: World, ghost b0: Buckets, d: nat, owner: nat, ghost next: nat,
                     known: set<Signature>, k: nat, signature: Signature, events: nat -> Interruption)
      returns (known': set<Signature>)
      requires Recording(w0, b0, d, owner, next, known, k) && k < |world.dictionaries[d]|
      requires SignatureOf(digest, world.dictionaries[d][k]) == Some(signature)
      modifies this
      ensures Recording(w0, b0, d, owner, next, known', k + 1)
    {
      ghost var w1, b1, now := world, buckets, nextToken;
      ShareValue(d, owner, k, signature, events);
      EditedFurther(w0, w1, world, d);
      GrownFurther(digest, b0, w1, b1, world, buckets, d, owner);
      CoveredKeeps(digest, w1, b1, world, buckets, d, owner, known);
      ghost var b2 := buckets;
      AnswerShares(digest, w0, b0, w1, b1, world, d, owner, next, now, k, signature);
      assert Values(world, owner)[k] == world.dictionaries[d][k];
      known' := RegisterOnce(signature, owner, known);
      assert Edited(world, world, d);
      GrownFurther(digest, b0, world, b2, world, buckets, d, owner);
      SharingStep(digest, w0, b0, w1, b1, world, buckets, d, owner, next, k);
    }

    lemma RecordingStarts(d: nat, owner: nat)
      requires Valid() && d in world.dictionaries && owner in world.records && world.records[owner] == Dictionary(d)
      ensures Recording(world, buckets, d, owner, nextToken, {}, 0)
    {
    }

    // A value that is neither a string nor bytes is left alone.
    lemma RecordingSkips(w0: World, b0: Buckets, d: nat, owner: nat, next: nat, known: set<Signature>, k: nat)
      requires Recording(w0, b0, d, owner, next, known, k) && k < |world.dictionaries[d]|
      requires SignatureOf(digest, world.dictionaries[d][k]).None?
      ensures Recording(w0, b0, d, owner, next, known, k + 1)
    {
      assert SharedAt(digest, w0, b0, world, d, k);
    }

    method RecordKeys(d: nat, owner: nat, events: nat -> nat -> Interruption) returns (known: set<Signature>)
      requires Valid() && d in world.dictionaries && owner in world.records && world.records[owner] == Dictionary(d)
      modifies this
      ensures d in old(world).dictionaries
      ensures Recording(old(world), old(buckets), d, owner, old(nextToken), known, |old(world).dictionaries[d]|)
    {
      ghost var w0, b0, next := world, buckets, nextToken;
      known := {};
      RecordingStarts(d, owner);
      for k := 0 to |world.dictionaries[d]|
        invariant Recording(w0, b0, d, owner, next, known, k)
      {
        var signature := SignatureOf(digest, world.dictionaries[d][k]);
        if signature.Some? {
          known := RecordKey(w0, b0, d, owner, next, known, k, signature.value, events(k));
        } else {
          RecordingSkips(w0, b0, d, owner, next, known, k);
        }
      }
    }

    // A new record of the bundle: the bundle keeps every value's exact type and content, with
    // objects shared as SharedAt says; the record is registered under everything the bundle
    // holds, and no other live record loses a registration.
    method Record(bundle: Bundle, owner: nat, events: nat -> nat -> Interruption)
      requires Valid() && owner !in world.records
      requires forall signature, r :: Listed(buckets, signature, r) ==> r.owner != owner
      requires bundle.Dictionary? ==> bundle.id in world.dictionaries
      modifies this
      ensures Valid() && owner in world.records && world.records[owner] == bundle
      ensures bundle.OtherBundle? ==> buckets == old(buckets) && world.dictionaries == old(world).dictionaries
      ensures bundle.Dictionary? ==>
                && bundle.id in world.dictionaries
                && Equivalent(old(world).dictionaries[bundle.id], world.dictionaries[bundle.id])
                && (forall e :: e in old(world).dictionaries && e != bundle.id ==>
                      e in world.dictionaries && world.dictionaries[e] == old(world).dictionaries[e])
                && Grown(digest, world, old(buckets), buckets, owner)
                && (forall signature :: Holds(digest, world, owner, signature) ==>
                      Registered(buckets, signature, owner))
                && (forall k :: 0 <= k < |world.dictionaries[bundle.id]| ==>
                      SharedAt(digest, old(world), old(buckets), world, bundle.id, k))
      // The same without the index: the new record is fully registered, the older ones stay so,
      // and with any of them that is alive its values are shared.
      ensures bundle.Dictionary? ==>
                && FullyRegistered(digest, buckets, world, owner)
                && (forall o :: o in old(world).records && FullyRegistered(digest, old(buckets), old(world), o) ==>
                      FullyRegistered(digest, buckets, world, o))
                && (forall k :: 0 <= k < |world.dictionaries[bundle.id]| ==>
                      SharedPlainly(digest, old(world), old(buckets), world,
                                    old(world).dictionaries[bundle.id][k], world.dictionaries[bundle.id][k]))
    {
      world := world.(records := world.records[owner := bundle]);
      if bundle.OtherBundle? { return; }
      var d := bundle.id;
      ghost var b0 := buckets;
      var known := RecordKeys(d, owner, events);
      forall k | 0 <= k < |world.dictionaries[d]|
        ensures SharedAt(digest, old(world), old(buckets), world, d, k)
      {
        SharedBefore(digest, old(world), owner, d, b0, world, k);
      }
      RegisteredAll(owner, d, known);
      SharedAfter(old(world), b0, owner, d);
    }

    lemma SharedAfter(w: World, b0: Buckets, owner: nat, d: nat)
      requires owner !in w.records && d in w.dictionaries && d in world.dictionaries
      requires |w.dictionaries[d]| == |world.dictionaries[d]|
      requires Edited(w.(records := w.records[owner := Dictionary(d)]), world, d)
      requires Grown(digest, world, b0, buckets, owner)
      requires forall k :: 0 <= k < |world.dictionaries[d]| ==> SharedAt(digest, w, b0, world, d, k)
      ensures forall o :: o in w.records && FullyRegistered(digest, b0, w, o) ==>
                FullyRegistered(digest, buckets, world, o)
      ensures forall k :: 0 <= k < |world.dictionaries[d]| ==>
                SharedPlainly(digest, w, b0, world, w.dictionaries[d][k], world.dictionaries[d][k])
    {
      forall o | o in w.records
        ensures forall value :: HoldsEqual(world, o, value) ==> HoldsEqual(w, o, value)
        ensures FullyRegistered(digest, b0, w, o) ==> FullyRegistered(digest, buckets, world, o)
      {
        OlderHeld(digest, w, owner, d, world, o);
        if FullyRegistered(digest, b0, w, o) { StaysRegistered(digest, w, b0, world, buckets, owner, o); }
      }
      forall k | 0 <= k < |world.dictionaries[d]|
        ensures SharedPlainly(digest, w, b0, world, w.dictionaries[d][k], world.dictionaries[d][k])
      {
        SharesPlainly(digest, w, b0, world, d, k);
      }
    }

    lemma RegisteredAll(owner: nat, d: nat, known: set<Signature>)
      requires d in world.dictionaries && owner in world.records && world.records[owner] == Dictionary(d)
      requires Covered(digest, world, buckets, owner, known) && Seen(d, |world.dictionaries[d]|, known)
      ensures forall signature :: Holds(digest, world, owner, signature) ==> Registered(buckets, signature, owner)
    {
    }
  }
}
