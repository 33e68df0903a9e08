// A model's answer stream: items close in any order, and a contiguous prefix of the source
// is committed and its calls admitted, early while the stream is open, the rest at its end.
module ActorStream {
  type Item = nat

  // The items are 1..items; some are calls, and some of those prove to be native.
  datatype Source = Source(items: nat, calls: set<Item>)

  datatype Terminal = Open | Success | Failed | Length

  // The item an encrypted amendment may still replace once the stream is over.
  const AMENDED: Item := 1

  datatype State = State(
    native: set<Item>,
    closed: set<Item>,
    proved: set<Item>,
    terminal: Terminal,
    canceled: bool,
    cursor: nat,
    planned: seq<Item>,
    committed: seq<Item>,
    admitted: seq<Item>,
    frozen: seq<Item>,
    amendment: bool,
    conflict: bool,
    nativeStored: set<Item>
  )

  ghost predicate ValidSource(src: Source) {
    forall i :: i in src.calls ==> 1 <= i <= src.items
  }

  // The items from just after `from` to `to`.
  function Span(from: nat, to: nat): seq<Item>
    requires from <= to
  {
    seq(to - from, i requires 0 <= i < to - from => from + i + 1)
  }

  function CallsIn(calls: set<Item>, items: seq<Item>): seq<Item> {
    if items == [] then []
    else
      var last := items[|items| - 1];
      CallsIn(calls, items[..|items| - 1]) + if last in calls then [last] else []
  }

  // ---------- the steps ----------

  ghost predicate Init(src: Source, s: State) {
    && s.native <= src.calls
    && s == State(s.native, {}, {}, Open, false, 0, [], [], [], [], false, false, {})
  }

  ghost predicate Close(src: Source, s: State, s': State, i: Item) {
    && s.terminal == Open && !s.canceled && 1 <= i <= src.items && i !in s.closed
    && s' == s.(closed := s.closed + {i})
  }

  ghost predicate Proof(s: State, s': State, i: Item) {
    && s.terminal == Open && !s.canceled && i in s.native && i !in s.proved
    && s' == s.(proved := s.proved + {i}, closed := s.closed + {i})
  }

  ghost predicate Finish(src: Source, s: State, s': State, terminal: Terminal) {
    && s.terminal == Open && terminal != Open && !s.canceled && s.planned == []
    && s' == s.(terminal := terminal,
                closed := if terminal == Success then set i | i in Span(0, src.items) else s.closed)
  }

  // Ready for an early commit up to a call: everything is closed and every call is proved.
  ghost predicate Ready(src: Source, s: State, k: Item) {
    forall i :: s.cursor < i <= k ==> i in s.closed && (i in src.calls ==> i in s.proved)
  }

  ghost predicate Prefix(src: Source, s: State, s': State, k: Item) {
    && !s.canceled && s.planned == [] && s.terminal == Open && k in src.calls && k > s.cursor
    && Ready(src, s, k)
    && s' == s.(planned := Span(s.cursor, k))
  }

  ghost predicate Final(src: Source, s: State, s': State) {
    && !s.canceled && s.planned == [] && s.terminal != Open && s.cursor < src.items
    && s' == s.(planned := Span(s.cursor, src.items))
  }

  predicate Admits(terminal: Terminal) { terminal == Open || terminal == Success }

  ghost predicate Ack(src: Source, s: State, s': State) {
    && !s.canceled && s.planned != []
    && s' == s.(committed := s.committed + s.planned, frozen := s.committed + s.planned,
                admitted := s.admitted + if Admits(s.terminal) then CallsIn(src.calls, s.planned) else [],
                nativeStored := s.nativeStored
                                + if Admits(s.terminal) then (set i | i in s.planned && i in s.proved) else {},
                cursor := s.cursor + |s.planned|, planned := [])
  }

  ghost predicate Cancel(s: State, s': State) {
    !s.canceled && s' == s.(canceled := true, planned := [])
  }

  ghost predicate Encrypt(s: State, s': State) {
    && s.terminal != Open && AMENDED in s.committed && !s.amendment && !s.conflict
    && s' == s.(amendment := true)
  }

  ghost predicate Conflict(s: State, s': State) {
    s.terminal != Open && !s.conflict && s' == s.(conflict := true)
  }

  ghost predicate Next(src: Source, s: State, s': State) {
    || (exists i :: Close(src, s, s', i) || Proof(s, s', i) || Prefix(src, s, s', i))
    || (exists terminal :: Finish(src, s, s', terminal))
    || Final(src, s, s') || Ack(src, s, s') || Cancel(s, s') || Encrypt(s, s') || Conflict(s, s')
  }

  ghost predicate IsRun(src: Source, run: seq<State>) {
    && ValidSource(src) && |run| > 0 && Init(src, run[0])
    && forall i :: 0 <= i < |run| - 1 ==> Next(src, run[i], run[i + 1])
  }

  // ---------- the calls of a prefix ----------

  lemma {:induction false} CallsSplit(calls: set<Item>, a: seq<Item>, b: seq<Item>)
    ensures CallsIn(calls, a + b) == CallsIn(calls, a) + CallsIn(calls, b)
  {
    if b == [] {
      assert a + b == a;
    } else {
      var n := |b| - 1;
      assert (a + b)[..|a| + n] == a + b[..n];
      CallsSplit(calls, a, b[..n]);
    }
  }

  ghost predicate Increasing(items: seq<Item>) {
    forall i, j :: 0 <= i < j < |items| ==> items[i] < items[j]
  }

  // The calls of a source prefix, each once and in source order.
  lemma {:induction false} CallsOfPrefix(calls: set<Item>, n: nat)
    ensures Increasing(CallsIn(calls, Span(0, n)))
    ensures forall i :: i in CallsIn(calls, Span(0, n)) <==> i in calls && 1 <= i <= n
  {
    if n > 0 {
      assert Span(0, n)[..n - 1] == Span(0, n - 1);
      CallsOfPrefix(calls, n - 1);
      var earlier := CallsIn(calls, Span(0, n - 1));
      assert forall k :: 0 <= k < |earlier| ==> earlier[k] in earlier;
    }
  }

  // ---------- the invariant ----------

  ghost predicate Commits(src: Source, s: State) {
    && s.cursor <= src.items && s.committed == Span(0, s.cursor) && s.frozen == s.committed
    && (s.planned != [] ==> exists to: nat :: Planned(src, s, to))
    && (s.canceled ==> s.planned == [])
    && (s.amendment ==> AMENDED in s.committed)
  }

  ghost predicate Planned(src: Source, s: State, to: nat) {
    && s.cursor < to <= src.items && s.planned == Span(s.cursor, to)
    && if s.terminal == Open then to in src.calls && Ready(src, s, to) else to == src.items
  }

  ghost predicate Proved(src: Source, s: State) {
    && s.proved <= s.native <= src.calls
    && (s.terminal == Open ==>
          forall i :: 1 <= i <= s.cursor ==> i in s.closed && (i in src.calls ==> i in s.proved))
  }

  // An admitting stream has admitted exactly the calls it committed; one that failed or
  // was cut short stops admitting, so what it admitted begins them.
  ghost predicate Admitted(src: Source, s: State) {
    && s.admitted <= CallsIn(src.calls, s.committed)
    && (Admits(s.terminal) ==> s.admitted == CallsIn(src.calls, s.committed))
    && (forall i :: i in s.nativeStored <==> i in s.admitted && i in s.proved)
  }

  ghost predicate Inv(src: Source, s: State) {
    ValidSource(src) && Commits(src, s) && Proved(src, s) && Admitted(src, s)
  }

  // ---------- every step keeps it ----------

  lemma AckKeeps(src: Source, s: State, s': State)
    requires Inv(src, s) && Ack(src, s, s')
    ensures Inv(src, s')
  {
    var to: nat :| Planned(src, s, to);
    assert Span(0, s.cursor) + Span(s.cursor, to) == Span(0, to);
    CallsSplit(src.calls, s.committed, s.planned);
    CallsOfPrefix(src.calls, s.cursor);
    CallsOfPrefix(src.calls, to);
    SpanElements(s.cursor, to);
    if Admits(s.terminal) {
      forall i ensures i in s'.nativeStored <==> i in s'.admitted && i in s'.proved {
        assert i in s'.admitted <==> i in src.calls && 1 <= i <= to;
      }
    }
  }

  lemma PlanKeeps(src: Source, s: State, s': State, i: Item)
    requires Inv(src, s) && (Prefix(src, s, s', i) || Final(src, s, s'))
    ensures Inv(src, s')
  {
    if Prefix(src, s, s', i) { assert Planned(src, s', i); }
    else { assert Planned(src, s', src.items); }
  }

  lemma SpanElements(from: nat, to: nat)
    requires from <= to
    ensures forall i :: i in Span(from, to) <==> from < i <= to
  {
    forall i | from < i <= to ensures i in Span(from, to) {
      assert Span(from, to)[i - from - 1] == i;
    }
  }

  lemma CloseKeeps(src: Source, s: State, s': State, i: Item)
    requires Inv(src, s) && (Close(src, s, s', i) || Proof(s, s', i))
    ensures Inv(src, s')
  {
    if s.planned != [] {
      var to: nat :| Planned(src, s, to);
      assert Planned(src, s', to);
    }
    if Proof(s, s', i) {
      CallsOfPrefix(src.calls, s.cursor);
      assert i in s.admitted ==> 1 <= i <= s.cursor && i in s.proved;
    }
  }

  lemma EndKeeps(src: Source, s: State, s': State)
    requires Inv(src, s)
    requires (exists terminal :: Finish(src, s, s', terminal)) || Cancel(s, s') || Encrypt(s, s') || Conflict(s, s')
    ensures Inv(src, s')
  {
    SpanElements(0, src.items);
    if s'.planned != [] {
      var to: nat :| Planned(src, s, to);
      assert Planned(src, s', to);
    }
  }

  lemma StepKeeps(src: Source, s: State, s': State)
    requires Inv(src, s) && Next(src, s, s')
    ensures Inv(src, s')
  {
    if i :| Close(src, s, s', i) || Proof(s, s', i) || Prefix(src, s, s', i) {
      if Prefix(src, s, s', i) { PlanKeeps(src, s, s', i); } else { CloseKeeps(src, s, s', i); }
    } else if Final(src, s, s') {
      PlanKeeps(src, s, s', 0);
    } else if Ack(src, s, s') {
      AckKeeps(src, s, s');
    } else {
      EndKeeps(src, s, s');
    }
  }

  lemma {:induction false} RunKeeps(src: Source, run: seq<State>, n: nat)
    requires IsRun(src, run) && n < |run|
    ensures Inv(src, run[n])
  {
    if n > 0 {
      RunKeeps(src, run, n - 1);
      StepKeeps(src, run[n - 1], run[n]);
    }
  }

  // ---------- what every run guarantees ----------

  // The committed content is a contiguous prefix of the source and has been frozen as it is.
  lemma SourcePrefix(src: Source, run: seq<State>, n: nat)
    requires IsRun(src, run) && n < |run|
    ensures |run[n].committed| <= src.items && run[n].frozen == run[n].committed
    ensures forall k :: 0 <= k < |run[n].committed| ==> run[n].committed[k] == k + 1
  {
    RunKeeps(src, run, n);
  }

  // Calls are admitted at most once, in source order and only when committed; while
  // results may still be admitted, all committed calls are.
  lemma AdmittedInOrder(src: Source, run: seq<State>, n: nat, i: Item)
    requires IsRun(src, run) && n < |run|
    ensures Increasing(run[n].admitted)
    ensures i in run[n].admitted ==> i in src.calls && i in run[n].committed
    ensures Admits(run[n].terminal) ==>
              (i in run[n].admitted <==> i in src.calls && i in run[n].committed)
  {
    RunKeeps(src, run, n);
    var s := run[n];
    CallsOfPrefix(src.calls, s.cursor);
    var calls := CallsIn(src.calls, s.committed);
    assert forall k :: 0 <= k < |s.admitted| ==> s.admitted[k] == calls[k];
    assert i in s.admitted ==> i in calls;
    if 1 <= i <= s.cursor { assert s.committed[i - 1] == i; }
  }

  // While the stream is open only proved native calls are admitted, and everything up to
  // the last committed item is closed.
  lemma OpenAdmitsProved(src: Source, run: seq<State>, n: nat, i: Item)
    requires IsRun(src, run) && n < |run| && run[n].terminal == Open
    ensures i in run[n].admitted ==> i in run[n].proved && i in run[n].native
    ensures i in run[n].committed ==> forall k :: 1 <= k <= i ==> k in run[n].closed
    ensures i in run[n].committed && i in src.calls ==> i in run[n].native
  {
    RunKeeps(src, run, n);
    AdmittedInOrder(src, run, n, i);
  }

  // Native markers go exactly to the admitted calls that have a proof.
  lemma MarkersExact(src: Source, run: seq<State>, n: nat, i: Item)
    requires IsRun(src, run) && n < |run|
    ensures i in run[n].nativeStored <==> i in run[n].admitted && i in run[n].proved
    ensures run[n].amendment ==> AMENDED in run[n].committed
  {
    RunKeeps(src, run, n);
  }

  // A successful stream that has committed all it can has admitted every call.
  lemma SuccessAdmitsAll(src: Source, run: seq<State>, n: nat)
    requires IsRun(src, run) && n < |run| && run[n].terminal == Success && run[n].cursor == src.items
    ensures forall i :: i in run[n].admitted <==> i in src.calls
  {
    RunKeeps(src, run, n);
    CallsOfPrefix(src.calls, src.items);
  }

  // What a step may do to what was committed and admitted: extend it, and after a
  // cancellation not even that.
  ghost predicate Extends(s: State, s': State) {
    && s.committed <= s'.committed && s.admitted <= s'.admitted
    && (s.canceled ==> s'.canceled && s'.committed == s.committed && s'.admitted == s.admitted)
  }

  lemma StepExtends(src: Source, s: State, s': State)
    requires Next(src, s, s')
    ensures Extends(s, s')
  {
  }

  lemma {:induction false} RunExtends(src: Source, run: seq<State>, i: nat, j: nat)
    requires IsRun(src, run) && i <= j < |run|
    ensures Extends(run[i], run[j])
    decreases j
  {
    if i < j {
      RunExtends(src, run, i, j - 1);
      StepExtends(src, run[j - 1], run[j]);
    }
  }
}
