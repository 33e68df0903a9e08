// A bounded census of the objects that a shell's output history keeps alive: a depth-first
// walk over a possibly cyclic graph, with an explicit stack of iterators.
module HistoryCensus {

  const MAX_VALUES := 10000

  type Id = nat

  // children are the values an iterator over the object yields: a dictionary's values, a
  // sequence's or set's elements. An output record yields its bundle if that is a plain
  // dictionary, and is otherwise unknown.
  datatype Object =
    | Text(size: nat)
    | Binary(size: nat)
    | Container(size: nat, children: seq<Id>)
    | Record(bundle: seq<Id>)
    | Scalar
    | Opaque

  // Objects without an entry are opaque to the census.
  type Heap = map<Id, Object>

  function At(heap: Heap, o: Id): Object { if o in heap then heap[o] else Opaque }

  function Children(heap: Heap, o: Id): seq<Id> {
    match At(heap, o)
    case Container(_, children) => children
    case Record(bundle) => if |bundle| == 1 then bundle else []
    case _ => []
  }

  // ---------- reachability ----------

  ghost predicate IsPath(heap: Heap, roots: seq<Id>, path: seq<Id>) {
    && |path| > 0 && path[0] in roots
    && forall i :: 0 <= i < |path| - 1 ==> path[i + 1] in Children(heap, path[i])
  }

  ghost predicate Reachable(heap: Heap, roots: seq<Id>, o: Id) {
    exists path :: IsPath(heap, roots, path) && path[|path| - 1] == o
  }

  lemma RootReachable(heap: Heap, roots: seq<Id>, o: Id)
    requires o in roots
    ensures Reachable(heap, roots, o)
  {
    assert IsPath(heap, roots, [o]);
    assert [o][|[o]| - 1] == o;
  }

  lemma ChildReachable(heap: Heap, roots: seq<Id>, o: Id, child: Id)
    requires Reachable(heap, roots, o) && child in Children(heap, o)
    ensures Reachable(heap, roots, child)
  {
    var path :| IsPath(heap, roots, path) && path[|path| - 1] == o;
    var longer := path + [child];
    assert IsPath(heap, roots, longer);
    assert longer[|longer| - 1] == child;
  }

  // A set that holds the roots and is closed under children holds everything reachable.
  lemma {:induction false} ClosedHoldsPath(heap: Heap, roots: seq<Id>, s: set<Id>, path: seq<Id>)
    requires forall o :: o in roots ==> o in s
    requires forall o, c :: o in s && c in Children(heap, o) ==> c in s
    requires IsPath(heap, roots, path)
    ensures path[|path| - 1] in s
  {
    if |path| > 1 {
      ClosedHoldsPath(heap, roots, s, path[..|path| - 1]);
    }
  }

  // ---------- totals over sets of objects ----------

  datatype Counts = Counts(containers: nat, containerBytes: nat, strings: nat, stringBytes: nat,
                           binaries: nat, binaryBytes: nat, unknown: nat)

  const NOTHING := Counts(0, 0, 0, 0, 0, 0, 0)

  function Plus(a: Counts, b: Counts): Counts {
    Counts(a.containers + b.containers, a.containerBytes + b.containerBytes, a.strings + b.strings,
           a.stringBytes + b.stringBytes, a.binaries + b.binaries, a.binaryBytes + b.binaryBytes,
           a.unknown + b.unknown)
  }

  predicate AtMost(a: Counts, b: Counts) {
    && a.containers <= b.containers && a.containerBytes <= b.containerBytes
    && a.strings <= b.strings && a.stringBytes <= b.stringBytes
    && a.binaries <= b.binaries && a.binaryBytes <= b.binaryBytes
    && a.unknown <= b.unknown
  }

  function Share(heap: Heap, o: Id): Counts {
    match At(heap, o)
    case Text(size) => NOTHING.(strings := 1, stringBytes := size)
    case Binary(size) => NOTHING.(binaries := 1, binaryBytes := size)
    case Container(size, _) => NOTHING.(containers := 1, containerBytes := size)
    case Record(bundle) => if |bundle| == 1 then NOTHING else NOTHING.(unknown := 1)
    case Scalar => NOTHING
    case Opaque => NOTHING.(unknown := 1)
  }

  // The sum of the shares of distinct objects.
  ghost function Total(heap: Heap, s: set<Id>): Counts {
    if s == {} then NOTHING
    else
      var o :| o in s;
      Plus(Share(heap, o), Total(heap, s - {o}))
  }

  lemma PlusSwap(a: Counts, b: Counts, c: Counts)
    ensures Plus(a, Plus(b, c)) == Plus(b, Plus(a, c))
  {
  }

  lemma {:induction false} TotalRemove(heap: Heap, s: set<Id>, o: Id)
    requires o in s
    ensures Total(heap, s) == Plus(Share(heap, o), Total(heap, s - {o}))
    decreases |s|
  {
    var picked :| picked in s && Total(heap, s) == Plus(Share(heap, picked), Total(heap, s - {picked}));
    if picked != o {
      TotalRemove(heap, s - {picked}, o);
      TotalRemove(heap, s - {o}, picked);
      assert s - {picked} - {o} == s - {o} - {picked};
      PlusSwap(Share(heap, picked), Share(heap, o), Total(heap, s - {o} - {picked}));
    }
  }

  lemma TotalAdd(heap: Heap, s: set<Id>, o: Id)
    requires o !in s
    ensures Total(heap, s + {o}) == Plus(Share(heap, o), Total(heap, s))
  {
    TotalRemove(heap, s + {o}, o);
    assert s + {o} - {o} == s;
  }

  // ---------- the fields, one by one ----------

  function SizeOf(o: Object): nat {
    match o
    case Text(size) => size
    case Binary(size) => size
    case Container(size, _) => size
    case _ => 0
  }

  ghost function SizeSum(heap: Heap, s: set<Id>): nat {
    if s == {} then 0
    else
      var o :| o in s;
      SizeOf(At(heap, o)) + SizeSum(heap, s - {o})
  }

  lemma {:induction false} SizeRemove(heap: Heap, s: set<Id>, o: Id)
    requires o in s
    ensures SizeSum(heap, s) == SizeOf(At(heap, o)) + SizeSum(heap, s - {o})
    decreases |s|
  {
    var picked :| picked in s && SizeSum(heap, s) == SizeOf(At(heap, picked)) + SizeSum(heap, s - {picked});
    if picked != o {
      SizeRemove(heap, s - {picked}, o);
      SizeRemove(heap, s - {o}, picked);
      assert s - {picked} - {o} == s - {o} - {picked};
    }
  }

  // What the census does not understand, and records without a single plain bundle, are unknown.
  datatype Kind = Strings | Bytes | Containers | Unknowns

  predicate Is(kind: Kind, o: Object) {
    match kind
    case Strings => o.Text?
    case Bytes => o.Binary?
    case Containers => o.Container?
    case Unknowns => o.Opaque? || (o.Record? && |o.bundle| != 1)
  }

  ghost function OfKind(heap: Heap, s: set<Id>, kind: Kind): set<Id> {
    set o | o in s && Is(kind, At(heap, o))
  }

  // So many objects of the kind, and so many bytes in them.
  ghost predicate FieldOf(heap: Heap, s: set<Id>, kind: Kind, count: nat, bytes: nat) {
    count == |OfKind(heap, s, kind)| && bytes == SizeSum(heap, OfKind(heap, s, kind))
  }

  // The counts are the numbers of objects of each kind and the sums of their sizes.
  ghost predicate CountsOf(heap: Heap, s: set<Id>, counts: Counts) {
    && FieldOf(heap, s, Kind.Strings, counts.strings, counts.stringBytes)
    && FieldOf(heap, s, Kind.Bytes, counts.binaries, counts.binaryBytes)
    && FieldOf(heap, s, Kind.Containers, counts.containers, counts.containerBytes)
    && FieldOf(heap, s, Kind.Unknowns, counts.unknown, 0)
  }

  // One object more is one more of its kind.
  lemma FieldGrows(heap: Heap, s: set<Id>, rest: set<Id>, o: Id, kind: Kind,
                   count: nat, bytes: nat, count': nat, bytes': nat)
    requires o in s && rest == s - {o} && FieldOf(heap, rest, kind, count, bytes)
    requires count' == count + if Is(kind, At(heap, o)) then 1 else 0
    requires bytes' == bytes + if Is(kind, At(heap, o)) then SizeOf(At(heap, o)) else 0
    ensures FieldOf(heap, s, kind, count', bytes')
  {
    var all, before := OfKind(heap, s, kind), OfKind(heap, rest, kind);
    if Is(kind, At(heap, o)) {
      SizeRemove(heap, all, o);
      assert all - {o} == before;
    } else {
      assert all == before;
    }
  }

  function CountField(counts: Counts, kind: Kind): nat {
    match kind
    case Strings => counts.strings
    case Bytes => counts.binaries
    case Containers => counts.containers
    case Unknowns => counts.unknown
  }

  function BytesField(counts: Counts, kind: Kind): nat {
    match kind
    case Strings => counts.stringBytes
    case Bytes => counts.binaryBytes
    case Containers => counts.containerBytes
    case Unknowns => 0
  }

  lemma ShareField(heap: Heap, o: Id, counts: Counts, kind: Kind)
    ensures var more := Plus(Share(heap, o), counts);
            && CountField(more, kind) == CountField(counts, kind) + (if Is(kind, At(heap, o)) then 1 else 0)
            && BytesField(more, kind)
               == BytesField(counts, kind) + (if Is(kind, At(heap, o)) then SizeOf(At(heap, o)) else 0)
  {
  }

  ghost predicate KindCounted(heap: Heap, s: set<Id>, kind: Kind, total: Counts) {
    FieldOf(heap, s, kind, CountField(total, kind), BytesField(total, kind))
  }

  lemma NothingCounted(heap: Heap, kind: Kind)
    ensures KindCounted(heap, {}, kind, NOTHING)
  {
    assert OfKind(heap, {}, kind) == {};
  }

  lemma OneMoreCounted(heap: Heap, s: set<Id>, rest: set<Id>, o: Id, kind: Kind, before: Counts, total: Counts)
    requires o in s && rest == s - {o} && total == Plus(Share(heap, o), before)
    requires KindCounted(heap, rest, kind, before)
    ensures KindCounted(heap, s, kind, total)
  {
    ShareField(heap, o, before, kind);
    FieldGrows(heap, s, rest, o, kind, CountField(before, kind), BytesField(before, kind),
               CountField(total, kind), BytesField(total, kind));
  }

  lemma TotalSplit(heap: Heap, s: set<Id>) returns (o: Id, rest: set<Id>, before: Counts)
    requires s != {}
    ensures o in s && rest == s - {o} && |rest| < |s|
    ensures before == Total(heap, rest) && Total(heap, s) == Plus(Share(heap, o), before)
  {
    o :| o in s;
    rest := s - {o};
    before := Total(heap, rest);
    TotalRemove(heap, s, o);
  }

  lemma {:induction false} FieldExact(heap: Heap, s: set<Id>, kind: Kind, total: Counts)
    requires total == Total(heap, s)
    ensures KindCounted(heap, s, kind, total)
    decreases |s|
  {
    if s == {} {
      NothingCounted(heap, kind);
    } else {
      var o, rest, before := TotalSplit(heap, s);
      FieldExact(heap, rest, kind, before);
      OneMoreCounted(heap, s, rest, o, kind, before, total);
    }
  }

  lemma TotalCounts(heap: Heap, s: set<Id>)
    ensures CountsOf(heap, s, Total(heap, s))
  {
    var total := Total(heap, s);
    FieldExact(heap, s, Kind.Strings, total);
    FieldExact(heap, s, Kind.Bytes, total);
    FieldExact(heap, s, Kind.Containers, total);
    FieldExact(heap, s, Kind.Unknowns, total);
  }

  lemma AtMostTransitive(a: Counts, b: Counts, c: Counts)
    requires AtMost(a, b) && AtMost(b, c)
    ensures AtMost(a, c)
  {
  }

  lemma {:induction false} TotalGrows(heap: Heap, s: set<Id>, t: set<Id>)
    requires s <= t
    ensures AtMost(Total(heap, s), Total(heap, t))
    decreases t - s
  {
    if t - s == {} {
      forall o | o in t ensures o in s { assert o !in t - s; }
      assert s == t;
    } else {
      var o :| o in t - s;
      var larger := s + {o};
      TotalAdd(heap, s, o);
      TotalGrows(heap, larger, t);
      AtMostTransitive(Total(heap, s), Total(heap, larger), Total(heap, t));
    }
  }

  // ---------- the walk ----------

  datatype State = Complete | Truncated | Unknown

  // What the iterators on the stack have yet to yield.
  ghost predicate Pending(stack: seq<seq<Id>>, o: Id) {
    exists i :: 0 <= i < |stack| && o in stack[i]
  }

  ghost predicate Walked(heap: Heap, roots: seq<Id>, stack: seq<seq<Id>>, seen: set<Id>, counts: Counts) {
    && (forall o :: o in seen ==> Reachable(heap, roots, o))
    && (forall o :: Pending(stack, o) ==> Reachable(heap, roots, o))
    && (forall o :: o in roots ==> o in seen || Pending(stack, o))
    && (forall o, c :: o in seen && c in Children(heap, o) ==> c in seen || Pending(stack, c))
    && counts == Total(heap, seen)
  }

  lemma PopKeeps(heap: Heap, roots: seq<Id>, stack: seq<seq<Id>>, seen: set<Id>, counts: Counts)
    requires Walked(heap, roots, stack, seen, counts) && stack != [] && stack[|stack| - 1] == []
    ensures Walked(heap, roots, stack[..|stack| - 1], seen, counts)
  {
    var rest := stack[..|stack| - 1];
    forall o ensures Pending(rest, o) <==> Pending(stack, o) {
      if Pending(stack, o) {
        var i :| 0 <= i < |stack| && o in stack[i];
        assert o in rest[i];
      }
      if Pending(rest, o) {
        var i :| 0 <= i < |rest| && o in rest[i];
        assert o in stack[i];
      }
    }
  }

  predicate Expands(heap: Heap, o: Id) {
    At(heap, o).Container? || (At(heap, o).Record? && |At(heap, o).bundle| == 1)
  }

  function Pushed(heap: Heap, stack: seq<seq<Id>>, o: Id): seq<seq<Id>> {
    if Expands(heap, o) then stack + [Children(heap, o)] else stack
  }

  lemma PushedPending(heap: Heap, stack: seq<seq<Id>>, value: Id, o: Id)
    ensures Pending(Pushed(heap, stack, value), o) <==> o in Children(heap, value) || Pending(stack, o)
  {
    var deeper := Pushed(heap, stack, value);
    if Pending(deeper, o) {
      var i :| 0 <= i < |deeper| && o in deeper[i];
      assert i < |stack| ==> o in stack[i];
    }
    if Pending(stack, o) {
      var i :| 0 <= i < |stack| && o in stack[i];
      assert o in deeper[i];
    }
    if o in Children(heap, value) { assert o in deeper[|stack|]; }
  }

  // The stack once its innermost iterator has yielded its next value.
  function Advanced(stack: seq<seq<Id>>): seq<seq<Id>>
    requires stack != [] && stack[|stack| - 1] != []
  {
    stack[..|stack| - 1] + [stack[|stack| - 1][1..]]
  }

  lemma AdvancedPending(stack: seq<seq<Id>>, o: Id)
    requires stack != [] && stack[|stack| - 1] != []
    ensures Pending(stack, o) <==> o == stack[|stack| - 1][0] || Pending(Advanced(stack), o)
  {
    var n := |stack| - 1;
    var top, rest := stack[n], Advanced(stack);
    assert top == [top[0]] + top[1..];
    if Pending(stack, o) && o != top[0] {
      var i :| 0 <= i < |stack| && o in stack[i];
      assert o in rest[i];
    }
    if Pending(rest, o) {
      var i :| 0 <= i < |rest| && o in rest[i];
      assert o in stack[i];
    }
    assert top[0] in stack[n];
  }

  // Taking the next value of the innermost iterator leaves everything else pending.
  lemma NextKeeps(heap: Heap, roots: seq<Id>, stack: seq<seq<Id>>, seen: set<Id>, counts: Counts)
    requires Walked(heap, roots, stack, seen, counts) && stack != [] && stack[|stack| - 1] != []
    ensures var value := stack[|stack| - 1][0];
            && Reachable(heap, roots, value)
            && (value in seen ==> Walked(heap, roots, Advanced(stack), seen, counts))
            && (value !in seen ==>
                  Walked(heap, roots, Pushed(heap, Advanced(stack), value), seen + {value},
                         Plus(Share(heap, value), counts)))
  {
    var value := stack[|stack| - 1][0];
    forall o ensures Pending(stack, o) <==> o == value || Pending(Advanced(stack), o) {
      AdvancedPending(stack, o);
    }
    assert Pending(stack, value);
    if value !in seen { NewKeeps(heap, roots, stack, seen, counts, value); }
  }

  lemma NewKeeps(heap: Heap, roots: seq<Id>, stack: seq<seq<Id>>, seen: set<Id>, counts: Counts, value: Id)
    requires Walked(heap, roots, stack, seen, counts) && stack != [] && stack[|stack| - 1] != []
    requires value == stack[|stack| - 1][0] && value !in seen && Reachable(heap, roots, value)
    requires forall o :: Pending(stack, o) <==> o == value || Pending(Advanced(stack), o)
    ensures Walked(heap, roots, Pushed(heap, Advanced(stack), value), seen + {value}, Plus(Share(heap, value), counts))
  {
    var deeper := Pushed(heap, Advanced(stack), value);
    forall o ensures Pending(deeper, o) <==> o in Children(heap, value) || Pending(Advanced(stack), o) {
      PushedPending(heap, Advanced(stack), value, o);
    }
    TotalAdd(heap, seen, value);
    forall c | c in Children(heap, value) ensures Reachable(heap, roots, c) {
      ChildReachable(heap, roots, value, c);
    }
  }

  lemma WalkStarts(heap: Heap, roots: seq<Id>)
    ensures Walked(heap, roots, [roots], {}, NOTHING)
  {
    forall o ensures Pending([roots], o) <==> o in roots {
      if o in roots { assert o in [roots][0]; }
    }
    forall o | o in roots ensures Reachable(heap, roots, o) { RootReachable(heap, roots, o); }
  }

  lemma WalkEnds(heap: Heap, roots: seq<Id>, seen: set<Id>, counts: Counts)
    requires Walked(heap, roots, [], seen, counts)
    ensures forall o :: o in seen <==> Reachable(heap, roots, o)
  {
    assert forall o :: !Pending([], o);
    forall o | Reachable(heap, roots, o) ensures o in seen {
      var path :| IsPath(heap, roots, path) && path[|path| - 1] == o;
      ClosedHoldsPath(heap, roots, seen, path);
    }
  }

  // all is the set of everything reachable from the roots.
  ghost predicate IsReachableSet(heap: Heap, roots: seq<Id>, all: set<Id>) {
    forall o :: o in all <==> Reachable(heap, roots, o)
  }

  lemma WalkBelow(heap: Heap, roots: seq<Id>, stack: seq<seq<Id>>, seen: set<Id>, counts: Counts, all: set<Id>)
    requires Walked(heap, roots, stack, seen, counts) && IsReachableSet(heap, roots, all)
    ensures seen <= all && AtMost(counts, Total(heap, all))
  {
    TotalGrows(heap, seen, all);
  }

  lemma WalkExact(heap: Heap, roots: seq<Id>, seen: set<Id>, counts: Counts, all: set<Id>)
    requires Walked(heap, roots, [], seen, counts) && IsReachableSet(heap, roots, all)
    ensures counts == Total(heap, all) && CountsOf(heap, all, counts)
  {
    WalkEnds(heap, roots, seen, counts);
    assert seen == all;
    TotalCounts(heap, all);
  }

  // The census of the objects reachable from the history roots. late is the clock: whether
  // the deadline has passed at the n-th turn of the loop.
  method CollectHistoryMemory(heap: Heap, roots: seq<Id>, late: nat -> bool)
    returns (state: State, counts: Counts, visited: nat, turn: nat)
    ensures visited <= MAX_VALUES
    // turn is the turn it ended in: it gives up only at the limit or at the first turn that is
    // past the deadline.
    ensures visited <= turn && (state == Truncated ==> visited == MAX_VALUES || late(turn))
    ensures forall earlier: nat :: earlier < turn ==> !late(earlier)
    // Not truncated: exact, with everything unknown counted as such.
    ensures forall all :: IsReachableSet(heap, roots, all) && state != Truncated ==>
              counts == Total(heap, all) && CountsOf(heap, all, counts)
    ensures state == Complete ==> counts.unknown == 0
    ensures state == Unknown ==> counts.unknown > 0
    // Truncated: a lower bound.
    ensures forall all :: IsReachableSet(heap, roots, all) ==> AtMost(counts, Total(heap, all))
  {
    state, counts, visited, turn := Complete, NOTHING, 0, 0;
    var seen: set<Id> := {};
    var stack: seq<seq<Id>> := [roots];
    WalkStarts(heap, roots);
    while stack != []
      invariant visited <= MAX_VALUES && visited <= turn && state == Complete
      invariant forall earlier: nat :: earlier < turn ==> !late(earlier)
      invariant Walked(heap, roots, stack, seen, counts)
      decreases MAX_VALUES - visited, |stack|
    {
      if visited >= MAX_VALUES || late(turn) {
        state := Truncated;
        break;
      }
      turn := turn + 1;
      var top := stack[|stack| - 1];
      if top == [] {
        PopKeeps(heap, roots, stack, seen, counts);
        stack := stack[..|stack| - 1];
        continue;
      }
      NextKeeps(heap, roots, stack, seen, counts);
      var value := top[0];
      stack := stack[..|stack| - 1] + [top[1..]];
      visited := visited + 1;
      if value in seen { continue; }
      seen := seen + {value};
      counts := Plus(Share(heap, value), counts);
      stack := Pushed(heap, stack, value);
    }
    forall all | IsReachableSet(heap, roots, all)
      ensures AtMost(counts, Total(heap, all))
      ensures state != Truncated ==> counts == Total(heap, all) && CountsOf(heap, all, counts)
    {
      WalkBelow(heap, roots, stack, seen, counts, all);
      if state != Truncated { WalkExact(heap, roots, seen, counts, all); }
    }
    if state == Complete && counts.unknown > 0 {
      state := Unknown;
    }
  }

  // There always is a finite set of everything reachable, so the promises are never empty.
  lemma ReachableSetExists(heap: Heap, roots: seq<Id>)
    ensures exists all :: IsReachableSet(heap, roots, all)
  {
    var universe := (set o | o in roots) + (set o, c | o in heap && c in Children(heap, o) :: c);
    forall o | Reachable(heap, roots, o) ensures o in universe {
      var path :| IsPath(heap, roots, path) && path[|path| - 1] == o;
      ClosedHoldsPath(heap, roots, universe, path);
    }
    var all := set o | o in universe && Reachable(heap, roots, o);
    assert IsReachableSet(heap, roots, all);
  }
}
