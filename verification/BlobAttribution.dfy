// The canonical consistency check of a snapshot's reuse statistics: can exactly
// blobCount of the saved blobs account for exactly byteCount bytes?
module BlobAttribution {

  const WORK_LIMIT := 250_000
  const BITSET_LIMIT := 64_000_000

  function Sum(s: seq<nat>): nat {
    if s == [] then 0 else Sum(s[..|s| - 1]) + s[|s| - 1]
  }

  // The number of marked entries of a selection, and the bytes they hold.
  function Marked(pick: seq<bool>): nat {
    if pick == [] then 0
    else Marked(pick[..|pick| - 1]) + if pick[|pick| - 1] then 1 else 0
  }

  function Held(s: seq<nat>, pick: seq<bool>): nat
    requires |pick| == |s|
  {
    if s == [] then 0
    else Held(s[..|s| - 1], pick[..|s| - 1]) + if pick[|s| - 1] then s[|s| - 1] else 0
  }

  ghost predicate Selects(s: seq<nat>, pick: seq<bool>, blobCount: int, byteCount: int) {
    |pick| == |s| && Marked(pick) == blobCount && Held(s, pick) == byteCount
  }

  // Some set of exactly blobCount distinct entries sums to byteCount.
  ghost predicate Attributable(s: seq<nat>, blobCount: int, byteCount: int) {
    exists pick: seq<bool> :: Selects(s, pick, blobCount, byteCount)
  }

  // The work guard, evaluated on the smaller side of the selection.
  predicate GuardExceeded(s: seq<nat>, blobCount: int, byteCount: int) {
    var n := |s|;
    && 0 < blobCount < n
    && var (k, b) := if blobCount > n - blobCount then (n - blobCount, Sum(s) - byteCount)
                     else (blobCount, byteCount);
       n * k > WORK_LIMIT || (k + 1) * (b + 1) > BITSET_LIMIT
  }

  // What the check decides: a proved attribution within the guard.
  ghost predicate Accepted(s: seq<nat>, blobCount: int, byteCount: int) {
    Attributable(s, blobCount, byteCount) && !GuardExceeded(s, blobCount, byteCount)
  }

  // ---------- selections ----------

  lemma {:induction false} MarkedBounds(pick: seq<bool>)
    ensures Marked(pick) <= |pick|
    ensures Marked(pick) == |pick| ==> forall i :: 0 <= i < |pick| ==> pick[i]
    ensures Marked(pick) == 0 ==> forall i :: 0 <= i < |pick| ==> !pick[i]
  {
    if pick != [] {
      MarkedBounds(pick[..|pick| - 1]);
    }
  }

  lemma {:induction false} MarkedAlike(pick: seq<bool>)
    requires forall j, k :: 0 <= j < |pick| && 0 <= k < |pick| ==> pick[j] == pick[k]
    ensures Marked(pick) == 0 || Marked(pick) == |pick|
    ensures |pick| > 0 ==> Marked(pick) == if pick[0] then |pick| else 0
  {
    if |pick| > 0 { MarkedAlike(pick[..|pick| - 1]); }
  }

  lemma {:induction false} ExtremeSelections(s: seq<nat>, pick: seq<bool>)
    requires |pick| == |s|
    ensures Marked(pick) == 0 ==> Held(s, pick) == 0
    ensures Marked(pick) == |s| ==> Held(s, pick) == Sum(s)
    ensures Held(s, pick) <= Sum(s)
  {
    if s != [] {
      MarkedBounds(pick[..|s| - 1]);
      ExtremeSelections(s[..|s| - 1], pick[..|s| - 1]);
    }
  }

  function Constant(n: nat, b: bool): (pick: seq<bool>)
    ensures |pick| == n && Marked(pick) == if b then n else 0
  {
    if n == 0 then [] else
    var rest := Constant(n - 1, b);
    assert (rest + [b])[..n - 1] == rest;
    rest + [b]
  }

  function Flipped(pick: seq<bool>): (r: seq<bool>)
    ensures |r| == |pick| && forall i :: 0 <= i < |pick| ==> r[i] == !pick[i]
  {
    seq(|pick|, i requires 0 <= i < |pick| => !pick[i])
  }

  lemma {:induction false} FlippedHolds(s: seq<nat>, pick: seq<bool>)
    requires |pick| == |s|
    ensures Marked(Flipped(pick)) == |s| - Marked(pick)
    ensures Held(s, Flipped(pick)) == Sum(s) - Held(s, pick)
  {
    if s != [] {
      var n := |s| - 1;
      assert Flipped(pick)[..n] == Flipped(pick[..n]);
      FlippedHolds(s[..n], pick[..n]);
    }
  }

  lemma ComplementHalf(s: seq<nat>, blobCount: int, byteCount: int)
    requires Attributable(s, blobCount, byteCount)
    ensures Attributable(s, |s| - blobCount, Sum(s) - byteCount)
  {
    var pick: seq<bool> :| Selects(s, pick, blobCount, byteCount);
    FlippedHolds(s, pick);
    assert Selects(s, Flipped(pick), |s| - blobCount, Sum(s) - byteCount);
  }

  // Proving one side of the selection proves the other.
  lemma Complement(s: seq<nat>, blobCount: int, byteCount: int)
    ensures Attributable(s, blobCount, byteCount)
            <==> Attributable(s, |s| - blobCount, Sum(s) - byteCount)
  {
    var k, b := |s| - blobCount, Sum(s) - byteCount;
    if Attributable(s, blobCount, byteCount) { ComplementHalf(s, blobCount, byteCount); }
    if Attributable(s, k, b) {
      ComplementHalf(s, k, b);
      assert |s| - k == blobCount && Sum(s) - b == byteCount;
    }
  }

  lemma NoneOrAll(s: seq<nat>, byteCount: int)
    ensures Attributable(s, 0, byteCount) <==> byteCount == 0
    ensures Attributable(s, |s|, byteCount) <==> byteCount == Sum(s)
  {
    forall pick: seq<bool>, k: int | Selects(s, pick, k, byteCount)
      ensures (k == 0 ==> byteCount == 0) && (k == |s| ==> byteCount == Sum(s))
    {
      ExtremeSelections(s, pick);
    }
    ExtremeSelections(s, Constant(|s|, false));
    ExtremeSelections(s, Constant(|s|, true));
    assert Selects(s, Constant(|s|, false), 0, 0);
    assert Selects(s, Constant(|s|, true), |s|, Sum(s));
  }

  lemma InRange(s: seq<nat>, blobCount: int, byteCount: int)
    requires Attributable(s, blobCount, byteCount)
    ensures 0 <= blobCount <= |s| && 0 <= byteCount <= Sum(s)
  {
    var pick: seq<bool> :| Selects(s, pick, blobCount, byteCount);
    MarkedBounds(pick);
    ExtremeSelections(s, pick);
  }

  // One more entry is either left out or included: the dynamic program's recurrence.
  lemma LastEntry(s: seq<nat>, amount: nat, k: int, b: int)
    ensures Attributable(s + [amount], k, b)
            <==> Attributable(s, k, b) || Attributable(s, k - 1, b - amount)
  {
    var t := s + [amount];
    assert t[..|s|] == s;
    if pick: seq<bool> :| Selects(t, pick, k, b) {
      var rest := pick[..|s|];
      assert Selects(s, rest, if pick[|s|] then k - 1 else k, if pick[|s|] then b - amount else b);
    }
    if pick: seq<bool> :| Selects(s, pick, k, b) {
      assert (pick + [false])[..|s|] == pick;
      assert Selects(t, pick + [false], k, b);
    }
    var k', b' := k - 1, b - amount;
    if pick: seq<bool> :| Selects(s, pick, k', b') {
      assert (pick + [true])[..|s|] == pick;
      assert Selects(t, pick + [true], k, b);
    }
  }

  lemma {:induction false} PrefixSuffices(s: seq<nat>, n: nat, k: int, b: int)
    requires n <= |s| && Attributable(s[..n], k, b)
    ensures Attributable(s, k, b)
    decreases |s| - n
  {
    if n == |s| {
      assert s[..n] == s;
    } else {
      LastEntry(s[..n], s[n], k, b);
      assert s[..n] + [s[n]] == s[..n + 1];
      PrefixSuffices(s, n + 1, k, b);
    }
  }

  // ---------- the sorted extreme bounds ----------

  ghost predicate Ordered(s: seq<nat>) {
    forall i, j :: 0 <= i < j < |s| ==> s[i] <= s[j]
  }

  function Insert(x: nat, s: seq<nat>): (r: seq<nat>)
    ensures |r| == |s| + 1
  {
    if s == [] || s[|s| - 1] <= x then s + [x]
    else Insert(x, s[..|s| - 1]) + [s[|s| - 1]]
  }

  function Sorted(s: seq<nat>): (r: seq<nat>)
    ensures |r| == |s|
  {
    if s == [] then [] else Insert(s[|s| - 1], Sorted(s[..|s| - 1]))
  }

  lemma {:induction false} InsertOrdered(x: nat, s: seq<nat>)
    requires Ordered(s)
    ensures Ordered(Insert(x, s))
    ensures forall y :: y in Insert(x, s) <==> y == x || y in s
  {
    if s == [] || s[|s| - 1] <= x {
      assert forall i :: 0 <= i < |s| ==> s[i] <= s[|s| - 1];
    } else {
      var rest := s[..|s| - 1];
      InsertOrdered(x, rest);
      assert s == rest + [s[|s| - 1]];
      forall y | y in Insert(x, rest) ensures y <= s[|s| - 1] {
        if y in rest { var i :| 0 <= i < |rest| && rest[i] == y; assert s[i] <= s[|s| - 1]; }
      }
      assert forall i :: 0 <= i < |s| ==> Insert(x, rest)[i] in Insert(x, rest);
    }
  }

  lemma {:induction false} SortedOrdered(s: seq<nat>)
    ensures Ordered(Sorted(s))
  {
    if s != [] {
      SortedOrdered(s[..|s| - 1]);
      InsertOrdered(s[|s| - 1], Sorted(s[..|s| - 1]));
    }
  }

  // Reordering entries keeps every attribution.
  lemma {:induction false} InsertAttributable(x: nat, s: seq<nat>, k: int, b: int)
    ensures Attributable(Insert(x, s), k, b) <==> Attributable(s + [x], k, b)
  {
    if s != [] && s[|s| - 1] > x {
      var rest, last := s[..|s| - 1], s[|s| - 1];
      assert s == rest + [last];
      InsertAttributable(x, rest, k, b);
      InsertAttributable(x, rest, k - 1, b - last);
      LastEntry(Insert(x, rest), last, k, b);
      LastEntry(s, x, k, b);
      LastEntry(rest, last, k, b);
      LastEntry(rest, last, k - 1, b - x);
      LastEntry(rest, x, k, b);
      LastEntry(rest, x, k - 1, b - last);
    }
  }

  lemma {:induction false} SortedAttributable(s: seq<nat>, k: int, b: int)
    ensures Attributable(Sorted(s), k, b) <==> Attributable(s, k, b)
  {
    if s != [] {
      var rest, x := s[..|s| - 1], s[|s| - 1];
      assert s == rest + [x];
      InsertAttributable(x, Sorted(rest), k, b);
      LastEntry(Sorted(rest), x, k, b);
      LastEntry(rest, x, k, b);
      SortedAttributable(rest, k, b);
      SortedAttributable(rest, k - 1, b - x);
    }
  }

  lemma {:induction false} SumSplit(s: seq<nat>, i: nat)
    requires i <= |s|
    ensures Sum(s) == Sum(s[..i]) + Sum(s[i..])
    decreases |s|
  {
    if i == |s| {
      assert s[..i] == s && s[i..] == [];
    } else {
      var n := |s| - 1;
      SumSplit(s[..n], i);
      assert s[..n][..i] == s[..i] && s[..n][i..] == s[i..][..n - i];
    }
  }

  // The k smallest entries bound every selection of k from below.
  lemma {:induction false} SmallestBound(s: seq<nat>, pick: seq<bool>, k: nat)
    requires Ordered(s) && |pick| == |s| && Marked(pick) == k
    ensures k <= |s| && Sum(s[..k]) <= Held(s, pick)
  {
    MarkedBounds(pick);
    if s != [] {
      var n := |s| - 1;
      MarkedBounds(pick[..n]);
      if pick[n] {
        SmallestBound(s[..n], pick[..n], k - 1);
        assert s[..k][..k - 1] == s[..n][..k - 1];
      } else {
        SmallestBound(s[..n], pick[..n], k);
        assert s[..n][..k] == s[..k];
      }
    }
  }

  lemma ExtremeBounds(s: seq<nat>, k: nat, b: int)
    requires k <= |s| && Attributable(s, k, b)
    ensures Sum(Sorted(s)[..k]) <= b <= Sum(Sorted(s)[|s| - k..])
  {
    var t := Sorted(s);
    SortedOrdered(s);
    SortedAttributable(s, k, b);
    var pick: seq<bool> :| Selects(t, pick, k, b);
    SmallestBound(t, pick, k);
    FlippedHolds(t, pick);
    SmallestBound(t, Flipped(pick), |s| - k);
    SumSplit(t, |s| - k);
  }

  // ---------- the bounded decision ----------

  // A bitset of byte totals, as the set of its bit positions.
  type Totals = set<nat>

  function ShiftWithin(totals: Totals, amount: nat, limit: nat): Totals {
    set t | t in totals && t + amount <= limit :: t + amount
  }

  ghost function Reachable(s: seq<nat>, k: int, limit: nat): Totals {
    set t | 0 <= t <= limit && Attributable(s, k, t)
  }

  lemma ReachableStep(s: seq<nat>, amount: nat, k: int, limit: nat)
    ensures Reachable(s + [amount], k, limit)
            == Reachable(s, k, limit) + ShiftWithin(Reachable(s, k - 1, limit), amount, limit)
  {
    var shifted := ShiftWithin(Reachable(s, k - 1, limit), amount, limit);
    forall t: nat
      ensures t in Reachable(s + [amount], k, limit) <==> t in Reachable(s, k, limit) || t in shifted
    {
      LastEntry(s, amount, k, t);
      if Attributable(s, k - 1, t - amount) && t <= limit {
        InRange(s, k - 1, t - amount);
        assert t - amount in Reachable(s, k - 1, limit);
      }
    }
  }

  lemma ReachableBeyond(s: seq<nat>, k: int, limit: nat)
    ensures k > |s| ==> Reachable(s, k, limit) == {}
    ensures Reachable(s, 0, limit) == {0}
  {
    forall t: nat | Attributable(s, k, t) ensures k <= |s| {
      InRange(s, k, t);
    }
    forall t: nat ensures Attributable(s, 0, t) <==> t == 0 {
      NoneOrAll(s, t);
    }
  }

  // The bounds on the search, in numbers, for the side of the selection that is searched.
  ghost predicate SideWithin(n: nat, k: int, b: int) {
    n * k <= 250_000 && (k + 1) * (b + 1) <= 64_000_000
  }

  // What is accepted, without naming the guard: every true attribution of none or all of the
  // entries, and every other one whose smaller side is within the bounds; with both sides
  // equal it is the requested side.
  lemma AcceptedExactly(s: seq<nat>, c: int, b: int)
    ensures Accepted(s, c, b) <==>
              && Attributable(s, c, b)
              && (c == 0 || c == |s| || (2 * c <= |s| && SideWithin(|s|, c, b))
                  || (2 * c > |s| && SideWithin(|s|, |s| - c, Sum(s) - b)))
  {
    if Attributable(s, c, b) { InRange(s, c, b); }
  }

  // A selection and its complement are answered alike, except that of two equal halves one may
  // be within the bounds and the other not.
  lemma ComplementAnswered(s: seq<nat>, c: int, b: int)
    ensures (Accepted(s, c, b) <==> Accepted(s, |s| - c, Sum(s) - b))
            <==> !(&& 2 * c == |s| && c > 0 && Attributable(s, c, b)
                   && (SideWithin(|s|, c, b) <==> !SideWithin(|s|, c, Sum(s) - b)))
  {
    AcceptedExactly(s, c, b);
    AcceptedExactly(s, |s| - c, Sum(s) - b);
    Complement(s, c, b);
    if Attributable(s, c, b) { InRange(s, c, b); }
  }

  // Every true attribution of one entry, or of all but one, is accepted in any snapshot that
  // respects its total limit.
  lemma OneOrAllButOneAccepted(s: seq<nat>, c: int, b: int)
    requires |s| <= 250_000 && Sum(s) <= 16 * 1024 * 1024
    requires Attributable(s, c, b) && (c == 1 || c == |s| - 1)
    ensures Accepted(s, c, b)
  {
    AcceptedExactly(s, c, b);
    InRange(s, c, b);
  }

  // The exception is real: of two halves of one snapshot the small one is accepted and the
  // large one refused.
  lemma HalvesAnsweredApart()
    ensures exists s: seq<nat>, b: nat ::
              && Sum(s) <= 16 * 1024 * 1024 && Attributable(s, |s| / 2, b) && |s| % 2 == 0
              && Accepted(s, |s| / 2, b) && !Accepted(s, |s| / 2, Sum(s) - b)
  {
    var s: seq<nat> := seq(30, i => if i < 15 then 0 else 1_000_000);
    var first := seq(30, i => i < 15);
    MarkedPrefix(30, 15);
    HalfHeld(15);
    assert Selects(s, first, 15, 0);
    AcceptedExactly(s, 15, 0);
    AcceptedExactly(s, 15, 15_000_000);
    assert Accepted(s, |s| / 2, 0) && Sum(s) - 0 == 15_000_000;
  }

  // Fifteen empty entries and then n of a million bytes.
  lemma {:induction false} HalfHeld(n: nat)
    ensures var s: seq<nat> := seq(15 + n, i => if i < 15 then 0 else 1_000_000);
            Sum(s) == n * 1_000_000 && Held(s, seq(15 + n, i => i < 15)) == 0
  {
    var s: seq<nat> := seq(15 + n, i => if i < 15 then 0 else 1_000_000);
    var pick := seq(15 + n, i => i < 15);
    if n == 0 {
      EqualBlobs(s, pick, 0);
      EqualBlobs(s, Constant(15, true), 0);
      ExtremeSelections(s, Constant(15, true));
    } else {
      HalfHeld(n - 1);
      assert s[..14 + n] == seq(14 + n, i => if i < 15 then 0 else 1_000_000);
      assert pick[..14 + n] == seq(14 + n, i => i < 15);
    }
  }

  method ExactBlobAttributionPossible(byteCounts: seq<nat>, blobCount: int, byteCount: int)
    returns (possible: bool, rounds: nat)
    ensures possible <==> Accepted(byteCounts, blobCount, byteCount)
    ensures possible <==>
              var n := |byteCounts|;
              && Attributable(byteCounts, blobCount, byteCount)
              && (blobCount == 0 || blobCount == n || (2 * blobCount <= n && SideWithin(n, blobCount, byteCount))
                  || (2 * blobCount > n && SideWithin(n, n - blobCount, Sum(byteCounts) - byteCount)))
    ensures rounds <= WORK_LIMIT
  {
    AcceptedExactly(byteCounts, blobCount, byteCount);
    rounds := 0;
    var n := |byteCounts|;
    if blobCount < 0 || blobCount > n || byteCount < 0 {
      if Attributable(byteCounts, blobCount, byteCount) {
        InRange(byteCounts, blobCount, byteCount);
      }
      return false, rounds;
    }
    NoneOrAll(byteCounts, byteCount);
    if blobCount == 0 {
      return byteCount == 0, rounds;
    }
    if blobCount == n {
      return byteCount == Sum(byteCounts), rounds;
    }
    var k, b := blobCount, byteCount;
    if k > n - k {
      Complement(byteCounts, blobCount, byteCount);
      k, b := n - k, Sum(byteCounts) - b;
    }
    var ordered := Sorted(byteCounts);
    if b < Sum(ordered[..k]) || b > Sum(ordered[n - k..]) {
      if Attributable(byteCounts, k, b) {
        ExtremeBounds(byteCounts, k, b);
      }
      return false, rounds;
    }
    if n * k > WORK_LIMIT || (k + 1) * (b + 1) > BITSET_LIMIT {
      return false, rounds;
    }
    possible, rounds := DecideBySubsetSum(byteCounts, k, b);
  }

  // The totals reachable with each number of entries up to k.
  ghost function Rows(s: seq<nat>, k: nat, limit: nat): (rows: seq<Totals>)
    ensures |rows| == k + 1
    ensures forall c :: 0 <= c <= k ==> rows[c] == Reachable(s, c, limit)
  {
    seq(k + 1, c => Reachable(s, c, limit))
  }

  lemma FirstRows(k: nat, limit: nat, c: nat)
    requires c <= k
    ensures Rows([], k, limit)[c] == if c == 0 then {0} else {}
  {
    ReachableBeyond([], c, limit);
  }

  lemma RowStep(s: seq<nat>, amount: nat, k: nat, limit: nat, c: nat)
    requires c <= k
    ensures var before, after := Rows(s, k, limit), Rows(s + [amount], k, limit);
            && (c == 0 || c > |s| + 1 ==> after[c] == before[c])
            && (c > 0 ==> after[c] == before[c] + ShiftWithin(before[c - 1], amount, limit))
  {
    ReachableStep(s, amount, c, limit);
    ReachableBeyond(s, c, limit);
    ReachableBeyond(s + [amount], c, limit);
  }

  // One entry more, counts taken downwards so that no entry is used twice.
  method AddEntry(reachable: array<Totals>, k: nat, b: nat, amount: nat, first: nat, ghost s: seq<nat>)
    returns (rounds: nat)
    requires reachable.Length == k + 1 && reachable[..] == Rows(s, k, b)
    requires first == if k < |s| + 1 then k else |s| + 1
    modifies reachable
    ensures reachable[..] == Rows(s + [amount], k, b)
    ensures rounds <= k
  {
    ghost var before, after := Rows(s, k, b), Rows(s + [amount], k, b);
    var count := first;
    rounds := 0;
    forall c | 0 <= c <= k && (c > count || c == 0) ensures after[c] == before[c] {
      RowStep(s, amount, k, b, c);
    }
    while count > 0
      invariant 0 <= count <= k && rounds + count <= k
      invariant reachable[0] == before[0] == after[0]
      invariant forall c :: 0 <= c <= k ==> reachable[c] == if c > count then after[c] else before[c]
    {
      RowStep(s, amount, k, b, count);
      reachable[count] := reachable[count] + ShiftWithin(reachable[count - 1], amount, b);
      count := count - 1;
      rounds := rounds + 1;
    }
  }

  lemma LastRow(s: seq<nat>, k: nat, b: nat)
    ensures b in Rows(s, k, b)[k] <==> Attributable(s, k, b)
  {
  }

  lemma OneRoundMore(index: nat, n: nat, k: nat)
    requires index < n
    ensures index * k + k == (index + 1) * k <= n * k
  {
  }

  method DecideBySubsetSum(byteCounts: seq<nat>, k: nat, b: nat)
    returns (possible: bool, rounds: nat)
    requires 0 < k <= |byteCounts|
    ensures possible <==> Attributable(byteCounts, k, b)
    ensures rounds <= |byteCounts| * k
  {
    rounds := 0;
    var reachable := new Totals[k + 1](c => if c == 0 then {0} else {});
    var index := 0;
    forall c: nat | c <= k ensures reachable[c] == Rows([], k, b)[c] {
      FirstRows(k, b, c);
    }
    assert byteCounts[..0] == [];
    assert !Attributable([], k, b) by {
      if Attributable([], k, b) { InRange([], k, b); }
    }
    while index < |byteCounts|
      invariant 0 <= index <= |byteCounts|
      invariant reachable[..] == Rows(byteCounts[..index], k, b)
      invariant !Attributable(byteCounts[..index], k, b)
      invariant rounds <= index * k
    {
      assert byteCounts[..index + 1] == byteCounts[..index] + [byteCounts[index]];
      var first := if k < index + 1 then k else index + 1;
      var more := AddEntry(reachable, k, b, byteCounts[index], first, byteCounts[..index]);
      OneRoundMore(index, |byteCounts|, k);
      rounds := rounds + more;
      LastRow(byteCounts[..index + 1], k, b);
      assert reachable[k] == reachable[..][k];
      if b in reachable[k] {
        PrefixSuffices(byteCounts, index + 1, k, b);
        return true, rounds;
      }
      index := index + 1;
    }
    assert byteCounts[..index] == byteCounts;
    return false, rounds;
  }

  // The guard is not vacuous: half of thirty equal blobs in a 16 MiB snapshot is a true
  // attribution that the check refuses.
  lemma HalfOfThirtyRefused()
    ensures var s := seq(30, _ => 559_240);
            Sum(s) <= 16 * 1024 * 1024 && Attributable(s, 15, 15 * 559_240) && !Accepted(s, 15, 15 * 559_240)
  {
    var s: seq<nat> := seq(30, _ => 559_240);
    var pick := seq(30, i => i < 15);
    EqualBlobs(s, pick, 559_240);
    EqualBlobs(s, Constant(30, true), 559_240);
    ExtremeSelections(s, Constant(30, true));
    MarkedPrefix(30, 15);
    assert Selects(s, pick, 15, 15 * 559_240);
  }

  lemma {:induction false} MarkedPrefix(n: nat, k: nat)
    requires k <= n
    ensures Marked(seq(n, i => i < k)) == k
  {
    var pick := seq(n, i => i < k);
    if n == k {
      if n > 0 {
        MarkedPrefix(n - 1, k - 1);
        assert pick[..n - 1] == seq(n - 1, i => i < k - 1);
      }
    } else {
      MarkedPrefix(n - 1, k);
      assert pick[..n - 1] == seq(n - 1, i => i < k);
    }
  }

  lemma {:induction false} EqualBlobs(s: seq<nat>, pick: seq<bool>, amount: nat)
    requires |pick| == |s| && forall i :: 0 <= i < |s| ==> s[i] == amount
    ensures Held(s, pick) == amount * Marked(pick)
  {
    if s != [] {
      EqualBlobs(s[..|s| - 1], pick[..|s| - 1], amount);
    }
  }
}
