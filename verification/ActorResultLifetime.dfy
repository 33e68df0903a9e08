// Tool results of an actor, from admission to delivery into a model turn or release when
// their run settles. Any number of runs, calls and inference flights.
module ActorResultLifetime {
  datatype Phase = Idle | Active | Stopping

  datatype Flight = NoFlight | Live | Retired

  // A call is absent until it is admitted.
  datatype Status = Executing | Committed | Published | Finished

  datatype Id = Id(run: nat, call: nat)

  datatype Batch = Batch(run: nat, ids: seq<Id>)

  datatype State = State(
    phase: Phase,
    run: nat,
    flight: Flight,
    attempts: nat,
    states: map<Id, Status>,
    canonical: seq<Id>,
    published: set<Id>,
    pending: seq<Id>,
    delivered: seq<Batch>,
    released: set<Id>,
    releaseFenced: bool
  )

  ghost predicate Is(s: State, id: Id, status: Status) {
    id in s.states && s.states[id] == status
  }

  ghost predicate NoTasks(s: State) {
    forall id :: id in s.states ==> s.states[id] == Finished
  }

  // ---------- the steps ----------

  ghost predicate Init(s: State) {
    s == State(Idle, 0, NoFlight, 0, map[], [], {}, [], [], {}, true)
  }

  ghost predicate Start(s: State, s': State) {
    s.phase == Idle && s' == s.(phase := Active, run := s.run + 1, attempts := 0)
  }

  ghost predicate Infer(s: State, s': State) {
    s.phase == Active && s.flight == NoFlight && s' == s.(flight := Live, attempts := s.attempts + 1)
  }

  ghost predicate Admit(s: State, s': State, id: Id) {
    && s.phase == Active && s.flight == Live && id.run == s.run && id !in s.states
    && s' == s.(states := s.states[id := Executing])
  }

  ghost predicate Commit(s: State, s': State, id: Id) {
    && Is(s, id, Executing) && (forall other :: !Is(s, other, Committed))
    && s' == s.(states := s.states[id := Committed], canonical := s.canonical + [id])
  }

  ghost predicate Publish(s: State, s': State, id: Id) {
    && Is(s, id, Committed)
    && s' == s.(states := s.states[id := Published], published := s.published + {id},
                pending := s.pending + [id])
  }

  ghost predicate Finish(s: State, s': State, id: Id) {
    Is(s, id, Published) && s' == s.(states := s.states[id := Finished])
  }

  // A normal or an error final event of the live flight drains what is pending.
  ghost predicate Terminal(s: State, s': State, error: bool) {
    && s.phase == Active && s.flight == Live
    && s' == s.(phase := if error then Stopping else Active, flight := NoFlight,
                delivered := s.delivered + [Batch(s.run, s.pending)], pending := [])
  }

  ghost predicate Retire(s: State, s': State) {
    s.phase == Active && s.flight == Live && s' == s.(flight := NoFlight)
  }

  ghost predicate Abort(s: State, s': State) {
    && s.phase == Active
    && s' == s.(phase := Stopping, flight := if s.flight == Live then Retired else s.flight)
  }

  ghost predicate CancelledTerminal(s: State, s': State) {
    s.phase == Stopping && s.flight == Retired && s' == s.(flight := NoFlight)
  }

  ghost predicate Settle(s: State, s': State) {
    && s.phase != Idle && s.attempts > 0 && NoTasks(s) && s.flight == NoFlight
    && s' == s.(phase := Idle, pending := [], released := s.released + (set id | id in s.pending),
                releaseFenced := s.releaseFenced && NoTasks(s) && s.flight == NoFlight)
  }

  ghost predicate CallStep(s: State, s': State, id: Id) {
    Admit(s, s', id) || Commit(s, s', id) || Publish(s, s', id) || Finish(s, s', id)
  }

  ghost predicate Next(s: State, s': State) {
    || Start(s, s') || Infer(s, s') || Retire(s, s') || Abort(s, s') || CancelledTerminal(s, s')
    || Settle(s, s') || (exists id :: CallStep(s, s', id)) || (exists error :: Terminal(s, s', error))
  }

  ghost predicate IsRun(run: seq<State>) {
    && |run| > 0 && Init(run[0])
    && forall i :: 0 <= i < |run| - 1 ==> Next(run[i], run[i + 1])
  }

  // ---------- the invariant ----------

  ghost predicate NoDuplicates(ids: seq<Id>) {
    forall i, j :: 0 <= i < j < |ids| ==> ids[i] != ids[j]
  }

  ghost predicate EndsWith(ids: seq<Id>, id: Id) {
    |ids| > 0 && ids[|ids| - 1] == id
  }

  // Tasks belong to the current run; the statuses say what is canonical and published; at
  // most one call is between the two, and it is the last canonical one.
  ghost predicate Owned(s: State) {
    && (forall id :: id in s.states ==> id.run <= s.run && (s.states[id] != Finished ==> id.run == s.run))
    && (forall id :: id in s.canonical <==> id in s.states && s.states[id] != Executing)
    && (forall id :: id in s.published <==> Is(s, id, Published) || Is(s, id, Finished))
    && NoDuplicates(s.canonical)
    && (forall id :: Is(s, id, Committed) ==> EndsWith(s.canonical, id))
    && (s.phase == Idle ==> NoTasks(s) && s.flight == NoFlight && s.pending == [])
    && s.releaseFenced && s.released <= s.published
  }

  // The canonical results that are published: all but a call just committed.
  ghost function Ledger(s: State): seq<Id> {
    var n := |s.canonical|;
    if n > 0 && Is(s, s.canonical[n - 1], Committed) then s.canonical[..n - 1] else s.canonical
  }

  // The delivered batches, the pending results counting as one more.
  ghost function Batches(s: State): seq<Batch> {
    s.delivered + [Batch(s.run, s.pending)]
  }

  ghost predicate OfRun(batch: Batch) {
    forall id :: id in batch.ids ==> id.run == batch.run
  }

  // A batch is a contiguous part of the ledger.
  ghost predicate BatchPlaced(ledger: seq<Id>, batch: Batch, start: int) {
    && 0 <= start && start + |batch.ids| <= |ledger| && ledger[start..start + |batch.ids|] == batch.ids
    && OfRun(batch)
  }

  ghost predicate Inside(batch: Batch, start: int, p: int) {
    start <= p < start + |batch.ids|
  }

  ghost predicate Covered(batches: seq<Batch>, starts: seq<int>, p: int)
    requires |starts| == |batches|
  {
    exists i :: 0 <= i < |batches| && Inside(batches[i], starts[i], p)
  }

  ghost predicate Ordered(batches: seq<Batch>, starts: seq<int>)
    requires |starts| == |batches|
  {
    forall i, k :: 0 <= i < k < |batches| ==> starts[i] + |batches[i].ids| <= starts[k]
  }

  // The batches lie one after the other in the ledger and the pending one ends it; what
  // lies in the gaps is what was released.
  ghost predicate Placed(ledger: seq<Id>, batches: seq<Batch>, released: set<Id>, starts: seq<int>) {
    && |starts| == |batches| > 0
    && (forall i :: 0 <= i < |batches| ==> BatchPlaced(ledger, batches[i], starts[i]))
    && Ordered(batches, starts)
    && starts[|starts| - 1] + |batches[|batches| - 1].ids| == |ledger|
    && (forall p :: 0 <= p < |ledger| ==> (ledger[p] in released <==> !Covered(batches, starts, p)))
  }

  ghost predicate Arranged(ledger: seq<Id>, batches: seq<Batch>, released: set<Id>) {
    exists starts :: Placed(ledger, batches, released, starts)
  }

  ghost predicate InPlace(s: State) { Arranged(Ledger(s), Batches(s), s.released) }

  ghost predicate Inv(s: State) { Owned(s) && InPlace(s) }

  // ---------- every step keeps it ----------

  lemma LedgerIsPublished(s: State)
    requires Owned(s)
    ensures NoDuplicates(Ledger(s)) && Ledger(s) <= s.canonical
    ensures forall id :: id in Ledger(s) <==> id in s.published
  {
    var n := |s.canonical|;
    if n > 0 && Is(s, s.canonical[n - 1], Committed) {
      forall id ensures id in Ledger(s) <==> id in s.published {
        if id in s.published {
          assert id in s.canonical && id != s.canonical[n - 1];
        }
        if id in Ledger(s) { assert id in s.canonical && !EndsWith(s.canonical, id); }
      }
    } else {
      forall id | id in s.canonical ensures !Is(s, id, Committed) {
        assert Is(s, id, Committed) ==> EndsWith(s.canonical, id);
      }
    }
  }

  lemma LedgerWithout(s: State)
    requires forall id :: !Is(s, id, Committed)
    ensures Ledger(s) == s.canonical
  {
  }

  lemma LedgerWith(s: State, id: Id)
    requires Is(s, id, Committed) && EndsWith(s.canonical, id)
    ensures Ledger(s) == s.canonical[..|s.canonical| - 1]
  {
  }

  lemma CommitOwned(s: State, s': State, id: Id)
    requires Owned(s) && Commit(s, s', id)
    ensures Owned(s') && Ledger(s') == Ledger(s)
  {
    LedgerWithout(s);
    forall other | other != id ensures !Is(s', other, Committed) {
      assert !Is(s, other, Committed);
    }
    LedgerWith(s', id);
  }

  lemma PublishOwned(s: State, s': State, id: Id)
    requires Owned(s) && Publish(s, s', id)
    ensures Owned(s') && Ledger(s') == Ledger(s) + [id]
  {
    assert EndsWith(s.canonical, id);
    LedgerWith(s, id);
    forall other ensures !Is(s', other, Committed) {
      assert Is(s, other, Committed) ==> EndsWith(s.canonical, other);
    }
    LedgerWithout(s');
  }

  lemma AdmitOrFinishOwned(s: State, s': State, id: Id)
    requires Owned(s) && (Admit(s, s', id) || Finish(s, s', id))
    ensures Owned(s') && Ledger(s') == Ledger(s)
  {
    assert forall other :: Is(s', other, Committed) <==> Is(s, other, Committed);
  }

  // A published result joins the pending batch at the end of the ledger.
  lemma PublishPlaced(ledger: seq<Id>, delivered: seq<Batch>, last: Batch, released: set<Id>, starts: seq<int>, id: Id)
    requires Placed(ledger, delivered + [last], released, starts) && id.run == last.run && id !in released
    ensures Placed(ledger + [id], delivered + [Batch(last.run, last.ids + [id])], released, starts)
  {
    var batches := delivered + [last];
    var batches' := delivered + [Batch(last.run, last.ids + [id])];
    var n := |delivered|;
    forall i | 0 <= i < |batches'| ensures BatchPlaced(ledger + [id], batches'[i], starts[i]) {
      assert BatchPlaced(ledger, batches[i], starts[i]);
    }
    forall p | 0 <= p < |ledger| + 1
      ensures (ledger + [id])[p] in released <==> !Covered(batches', starts, p)
    {
      if p == |ledger| {
        assert Inside(batches'[n], starts[n], p);
      } else {
        assert forall i :: 0 <= i < |batches| ==>
                 (Inside(batches'[i], starts[i], p) <==> Inside(batches[i], starts[i], p));
      }
    }
  }

  // An empty batch at the end of the ledger.
  lemma EmptyPlaced(ledger: seq<Id>, batches: seq<Batch>, released: set<Id>, starts: seq<int>, run: nat)
    requires Placed(ledger, batches, released, starts)
    ensures Placed(ledger, batches + [Batch(run, [])], released, starts + [|ledger|])
  {
    var batches', starts' := batches + [Batch(run, [])], starts + [|ledger|];
    forall i | 0 <= i < |batches'| ensures BatchPlaced(ledger, batches'[i], starts'[i]) {
      if i < |batches| { assert BatchPlaced(ledger, batches[i], starts[i]); }
    }
    forall p | 0 <= p < |ledger| ensures Covered(batches', starts', p) <==> Covered(batches, starts, p) {
      if i :| 0 <= i < |batches| && Inside(batches[i], starts[i], p) {
        assert Inside(batches'[i], starts'[i], p);
      }
    }
    assert Ordered(batches', starts');
  }

  // A position belongs to the last batch exactly from that batch's start on.
  lemma LastHolds(ledger: seq<Id>, last: Batch, start: int, p: int)
    requires NoDuplicates(ledger) && BatchPlaced(ledger, last, start) && start + |last.ids| == |ledger|
    requires 0 <= p < |ledger|
    ensures ledger[p] in last.ids <==> p >= start
  {
    assert forall j :: 0 <= j < |last.ids| ==> last.ids[j] == ledger[start..start + |last.ids|][j] == ledger[start + j];
    if p >= start { assert last.ids[p - start] == ledger[p]; }
  }

  lemma GapAfter(delivered: seq<Batch>, last: Batch, starts: seq<int>, run: nat, end: int, p: int)
    requires |starts| == |delivered| + 1 && Ordered(delivered + [last], starts)
    requires p < end
    ensures var batches', starts' := delivered + [Batch(run, [])], starts[|delivered| := end];
            Covered(batches', starts', p) <==> p < starts[|delivered|] && Covered(delivered + [last], starts, p)
  {
    var n := |delivered|;
    var batches, batches' := delivered + [last], delivered + [Batch(run, [])];
    var starts' := starts[n := end];
    forall i | 0 <= i < |batches'|
      ensures Inside(batches'[i], starts'[i], p) <==> p < starts[n] && Inside(batches[i], starts[i], p)
    {
      assert i < n ==> starts[i] + |batches[i].ids| <= starts[n];
    }
  }

  // The last batch leaves its place, which is then a gap.
  lemma ReleasePlaced(ledger: seq<Id>, delivered: seq<Batch>, last: Batch, released: set<Id>, starts: seq<int>,
                      run: nat)
    requires NoDuplicates(ledger) && Placed(ledger, delivered + [last], released, starts)
    ensures Placed(ledger, delivered + [Batch(run, [])], released + (set id | id in last.ids),
                   starts[|delivered| := |ledger|])
  {
    var n := |delivered|;
    var batches, batches' := delivered + [last], delivered + [Batch(run, [])];
    var starts' := starts[n := |ledger|];
    forall i | 0 <= i < |batches'| ensures BatchPlaced(ledger, batches'[i], starts'[i]) {
      assert BatchPlaced(ledger, batches[i], starts[i]);
    }
    assert BatchPlaced(ledger, batches[n], starts[n]);
    forall p | 0 <= p < |ledger|
      ensures ledger[p] in released + (set id | id in last.ids) <==> !Covered(batches', starts', p)
    {
      GapAfter(delivered, last, starts, run, |ledger|, p);
      LastHolds(ledger, last, starts[n], p);
    }
  }

  // The batch of a new run, when there is nothing in the old one.
  lemma RunPlaced(ledger: seq<Id>, delivered: seq<Batch>, last: Batch, released: set<Id>, starts: seq<int>, run: nat)
    requires Placed(ledger, delivered + [last], released, starts) && last.ids == []
    ensures Placed(ledger, delivered + [Batch(run, [])], released, starts)
  {
    var batches, batches' := delivered + [last], delivered + [Batch(run, [])];
    forall i | 0 <= i < |batches'| ensures BatchPlaced(ledger, batches'[i], starts[i]) {
      assert BatchPlaced(ledger, batches[i], starts[i]);
    }
    forall p | 0 <= p < |ledger| ensures Covered(batches', starts, p) <==> Covered(batches, starts, p) {
      assert forall i :: 0 <= i < |batches| ==>
               (Inside(batches'[i], starts[i], p) <==> Inside(batches[i], starts[i], p));
    }
  }

  lemma PublishArranged(ledger: seq<Id>, ledger': seq<Id>, delivered: seq<Batch>, batches: seq<Batch>,
                        batches': seq<Batch>, released: set<Id>, run: nat, pending: seq<Id>, id: Id)
    requires Arranged(ledger, batches, released) && ledger' == ledger + [id]
    requires batches == delivered + [Batch(run, pending)] && batches' == delivered + [Batch(run, pending + [id])]
    requires id.run == run && id !in released
    ensures Arranged(ledger', batches', released)
  {
    var starts :| Placed(ledger, batches, released, starts);
    PublishPlaced(ledger, delivered, Batch(run, pending), released, starts, id);
    assert Placed(ledger', batches', released, starts);
  }

  lemma CallKeeps(s: State, s': State, id: Id)
    requires Inv(s) && CallStep(s, s', id)
    ensures Inv(s')
  {
    if Publish(s, s', id) {
      PublishOwned(s, s', id);
      PublishArranged(Ledger(s), Ledger(s'), s.delivered, Batches(s), Batches(s'), s.released, s.run, s.pending, id);
    } else {
      if Commit(s, s', id) { CommitOwned(s, s', id); } else { AdmitOrFinishOwned(s, s', id); }
      assert Batches(s') == Batches(s);
    }
  }

  lemma TerminalArranged(ledger: seq<Id>, batches: seq<Batch>, batches': seq<Batch>, released: set<Id>, run: nat)
    requires Arranged(ledger, batches, released) && batches' == batches + [Batch(run, [])]
    ensures Arranged(ledger, batches', released)
  {
    var starts :| Placed(ledger, batches, released, starts);
    EmptyPlaced(ledger, batches, released, starts, run);
    assert Placed(ledger, batches', released, starts + [|ledger|]);
  }

  lemma TerminalKeeps(s: State, s': State, error: bool)
    requires Inv(s) && Terminal(s, s', error)
    ensures Inv(s')
  {
    TerminalArranged(Ledger(s), Batches(s), Batches(s'), s.released, s.run);
    SameStates(s, s');
    assert Owned(s');
  }

  lemma SameStates(s: State, s': State)
    requires s'.states == s.states && s'.canonical == s.canonical
    ensures Ledger(s') == Ledger(s)
    ensures forall id, status :: Is(s', id, status) <==> Is(s, id, status)
  {
  }

  lemma InLedger(ledger: seq<Id>, batches: seq<Batch>, released: set<Id>, starts: seq<int>, i: nat, j: nat)
    requires Placed(ledger, batches, released, starts) && i < |batches| && j < |batches[i].ids|
    ensures 0 <= starts[i] + j < |ledger| && batches[i].ids[j] == ledger[starts[i] + j]
    ensures batches[i].ids[j] in ledger && batches[i].ids[j] !in released
    ensures batches[i].ids[j].run == batches[i].run
  {
    assert BatchPlaced(ledger, batches[i], starts[i]);
    assert batches[i].ids[j] == ledger[starts[i]..starts[i] + |batches[i].ids|][j];
    assert Inside(batches[i], starts[i], starts[i] + j);
    assert Covered(batches, starts, starts[i] + j);
    assert batches[i].ids[j] in batches[i].ids;
  }

  // What is pending is published.
  lemma PendingPublished(s: State, id: Id)
    requires Inv(s) && id in s.pending
    ensures id in s.published
  {
    var starts :| Placed(Ledger(s), Batches(s), s.released, starts);
    LedgerIsPublished(s);
    var j :| 0 <= j < |s.pending| && s.pending[j] == id;
    InLedger(Ledger(s), Batches(s), s.released, starts, |s.delivered|, j);
  }

  lemma SettleOwned(s: State, s': State)
    requires Inv(s) && Settle(s, s')
    ensures Owned(s')
  {
    forall id | id in s.pending ensures id in s.published { PendingPublished(s, id); }
    assert forall id, status :: Is(s', id, status) <==> Is(s, id, status);
  }

  lemma SettleArranged(ledger: seq<Id>, delivered: seq<Batch>, batches: seq<Batch>, batches': seq<Batch>,
                       released: set<Id>, released': set<Id>, run: nat, pending: seq<Id>)
    requires Arranged(ledger, batches, released) && NoDuplicates(ledger)
    requires batches == delivered + [Batch(run, pending)] && batches' == delivered + [Batch(run, [])]
    requires released' == released + (set id | id in pending)
    ensures Arranged(ledger, batches', released')
  {
    var starts :| Placed(ledger, batches, released, starts);
    ReleasePlaced(ledger, delivered, Batch(run, pending), released, starts, run);
    assert Placed(ledger, batches', released', starts[|delivered| := |ledger|]);
  }

  lemma SettleKeeps(s: State, s': State)
    requires Inv(s) && Settle(s, s')
    ensures Inv(s')
  {
    SettleOwned(s, s');
    SameStates(s, s');
    LedgerIsPublished(s);
    SettleArranged(Ledger(s), s.delivered, Batches(s), Batches(s'), s.released, s'.released, s.run, s.pending);
  }

  lemma StartArranged(ledger: seq<Id>, delivered: seq<Batch>, batches: seq<Batch>, batches': seq<Batch>,
                      released: set<Id>, run: nat, run': nat)
    requires Arranged(ledger, batches, released)
    requires batches == delivered + [Batch(run, [])] && batches' == delivered + [Batch(run', [])]
    ensures Arranged(ledger, batches', released)
  {
    var starts :| Placed(ledger, batches, released, starts);
    RunPlaced(ledger, delivered, Batch(run, []), released, starts, run');
    assert Placed(ledger, batches', released, starts);
  }

  lemma StartKeeps(s: State, s': State)
    requires Inv(s) && Start(s, s')
    ensures Inv(s')
  {
    SameStates(s, s');
    StartArranged(Ledger(s), s.delivered, Batches(s), Batches(s'), s.released, s.run, s'.run);
    assert Owned(s');
  }

  // Only the phase and the flight move.
  lemma PhaseKeeps(s: State, s': State)
    requires Inv(s) && (Infer(s, s') || Retire(s, s') || Abort(s, s') || CancelledTerminal(s, s'))
    ensures Inv(s')
  {
    PhaseOwned(s, s');
    SameStates(s, s');
    assert Batches(s') == Batches(s);
  }

  lemma PhaseOwned(s: State, s': State)
    requires Owned(s) && s' == s.(phase := s'.phase, flight := s'.flight, attempts := s'.attempts) && s'.phase != Idle
    ensures Owned(s')
  {
    assert forall id, status :: Is(s', id, status) <==> Is(s, id, status);
  }

  lemma StepKeeps(s: State, s': State)
    requires Inv(s) && Next(s, s')
    ensures Inv(s')
  {
    if id :| CallStep(s, s', id) { CallKeeps(s, s', id); }
    else if error :| Terminal(s, s', error) { TerminalKeeps(s, s', error); }
    else if Settle(s, s') { SettleKeeps(s, s'); }
    else if Start(s, s') { StartKeeps(s, s'); }
    else { PhaseKeeps(s, s'); }
  }

  lemma {:induction false} RunKeeps(run: seq<State>, n: nat)
    requires IsRun(run) && n < |run|
    ensures Inv(run[n])
  {
    if n == 0 {
      assert Placed(Ledger(run[0]), Batches(run[0]), run[0].released, [0]);
    } else {
      RunKeeps(run, n - 1);
      StepKeeps(run[n - 1], run[n]);
    }
  }

  // ---------- what the runs guarantee ----------

  ghost predicate DeliveredAt(s: State, id: Id, i: nat, j: nat) {
    i < |s.delivered| && j < |s.delivered[i].ids| && s.delivered[i].ids[j] == id
  }

  ghost predicate Delivered(s: State, id: Id) {
    exists i: nat, j: nat :: DeliveredAt(s, id, i, j)
  }

  // Where the j-th result of batch i lies in the canonical sequence.
  lemma PlaceOf(s: State, starts: seq<int>, i: nat, j: nat)
    requires Owned(s) && Placed(Ledger(s), Batches(s), s.released, starts)
    requires i < |Batches(s)| && j < |Batches(s)[i].ids|
    ensures 0 <= starts[i] + j < |Ledger(s)| && NoDuplicates(Ledger(s)) && Ledger(s) <= s.canonical
    ensures Batches(s)[i].ids[j] == Ledger(s)[starts[i] + j]
    ensures Batches(s)[i].ids[j] in s.published && Batches(s)[i].ids[j] !in s.released
    ensures Batches(s)[i].ids[j].run == Batches(s)[i].run
  {
    LedgerIsPublished(s);
    InLedger(Ledger(s), Batches(s), s.released, starts, i, j);
  }

  lemma CoveredIsHeld(s: State, starts: seq<int>, p: int)
    requires Placed(Ledger(s), Batches(s), s.released, starts)
    requires 0 <= p < |Ledger(s)| && Covered(Batches(s), starts, p)
    ensures Ledger(s)[p] in s.pending || Delivered(s, Ledger(s)[p])
  {
    var i :| 0 <= i < |Batches(s)| && Inside(Batches(s)[i], starts[i], p);
    InLedger(Ledger(s), Batches(s), s.released, starts, i, p - starts[i]);
    if i < |s.delivered| { assert DeliveredAt(s, Ledger(s)[p], i, p - starts[i]); }
  }

  // Every published result is pending, delivered or released, and nothing else is.
  lemma PublishedIsOwned(s: State, id: Id)
    requires Inv(s)
    ensures id in s.published <==> id in s.pending || Delivered(s, id) || id in s.released
  {
    var starts :| Placed(Ledger(s), Batches(s), s.released, starts);
    if id in s.published && id !in s.released {
      LedgerIsPublished(s);
      var p :| 0 <= p < |Ledger(s)| && Ledger(s)[p] == id;
      CoveredIsHeld(s, starts, p);
    }
    if id in s.pending { PendingPublished(s, id); }
    if i: nat, j: nat :| DeliveredAt(s, id, i, j) { PlaceOf(s, starts, i, j); }
  }

  // A result has one place: the same result at two places is at the same place.
  lemma OwnedOnce(s: State, i: nat, j: nat, i': nat, j': nat)
    requires Inv(s) && i < |Batches(s)| && j < |Batches(s)[i].ids|
    requires i' < |Batches(s)| && j' < |Batches(s)[i'].ids|
    ensures Batches(s)[i].ids[j] == Batches(s)[i'].ids[j'] ==> i == i' && j == j'
    ensures Batches(s)[i].ids[j] !in s.released
  {
    var starts :| Placed(Ledger(s), Batches(s), s.released, starts);
    PlaceOf(s, starts, i, j);
    PlaceOf(s, starts, i', j');
    assert Ordered(Batches(s), starts);
    if i < i' {
      assert starts[i] + |Batches(s)[i].ids| <= starts[i'];
    } else if i' < i {
      assert starts[i'] + |Batches(s)[i'].ids| <= starts[i];
    }
  }

  // Published results, exactly one owner each.
  ghost predicate OneOwner(s: State, id: Id) {
    || (id in s.pending && !Delivered(s, id) && id !in s.released)
    || (id !in s.pending && Delivered(s, id) && id !in s.released)
    || (id !in s.pending && !Delivered(s, id) && id in s.released)
  }

  lemma OwnershipConserved(run: seq<State>, n: nat, id: Id)
    requires IsRun(run) && n < |run|
    ensures id in run[n].published <==> OneOwner(run[n], id)
  {
    var s := run[n];
    RunKeeps(run, n);
    PublishedIsOwned(s, id);
    if id in s.pending {
      var k: nat :| k < |s.pending| && s.pending[k] == id;
      OwnedOnce(s, |s.delivered|, k, |s.delivered|, k);
      if i: nat, j: nat :| DeliveredAt(s, id, i, j) {
        OwnedOnce(s, |s.delivered|, k, i, j);
        assert false;
      }
    }
    if i: nat, j: nat :| DeliveredAt(s, id, i, j) { OwnedOnce(s, i, j, i, j); }
  }

  // No result is delivered twice, in one batch or in two.
  lemma DeliveredOnce(run: seq<State>, n: nat, id: Id, i: nat, j: nat, i': nat, j': nat)
    requires IsRun(run) && n < |run|
    requires DeliveredAt(run[n], id, i, j) && DeliveredAt(run[n], id, i', j')
    ensures i == i' && j == j'
  {
    RunKeeps(run, n);
    OwnedOnce(run[n], i, j, i', j');
  }

  ghost predicate Before(ids: seq<Id>, first: Id, second: Id) {
    exists a, b :: 0 <= a < b < |ids| && ids[a] == first && ids[b] == second
  }

  lemma PlacesOrdered(ledger: seq<Id>, batches: seq<Batch>, released: set<Id>, starts: seq<int>,
                      i: nat, j: nat, k: nat, l: nat)
    requires Placed(ledger, batches, released, starts)
    requires i < k < |batches| || (i == k < |batches| && j < l)
    requires j < |batches[i].ids| && l < |batches[k].ids|
    ensures Before(ledger, batches[i].ids[j], batches[k].ids[l])
  {
    InLedger(ledger, batches, released, starts, i, j);
    InLedger(ledger, batches, released, starts, k, l);
    assert Ordered(batches, starts);
    assert i < k ==> starts[i] + |batches[i].ids| <= starts[k];
    var a, b := starts[i] + j, starts[k] + l;
    assert 0 <= a < b < |ledger|;
  }

  lemma BeforeInLonger(ledger: seq<Id>, ids: seq<Id>, x: Id, y: Id)
    requires ledger <= ids && Before(ledger, x, y)
    ensures Before(ids, x, y)
  {
    var a, b :| 0 <= a < b < |ledger| && ledger[a] == x && ledger[b] == y;
    assert ids[a] == x && ids[b] == y;
  }

  // Results go to their own run, after canonical commit, and in canonical order, across
  // batches as well as inside one.
  lemma DeliveryOrder(run: seq<State>, n: nat, x: Id, i: nat, j: nat, y: Id, k: nat, l: nat)
    requires IsRun(run) && n < |run|
    requires DeliveredAt(run[n], x, i, j) && DeliveredAt(run[n], y, k, l)
    ensures x.run == run[n].delivered[i].run && x in run[n].canonical
    ensures i < k || (i == k && j < l) ==> Before(run[n].canonical, x, y)
  {
    RunKeeps(run, n);
    DeliveredInOrder(run[n], x, i, j, y, k, l);
  }

  lemma DeliveredInOrder(s: State, x: Id, i: nat, j: nat, y: Id, k: nat, l: nat)
    requires InPlace(s) && DeliveredAt(s, x, i, j) && DeliveredAt(s, y, k, l)
    ensures x.run == s.delivered[i].run && x in s.canonical
    ensures i < k || (i == k && j < l) ==> Before(s.canonical, x, y)
  {
    var ledger, batches := Ledger(s), Batches(s);
    assert ledger <= s.canonical && batches[i] == s.delivered[i] && batches[k] == s.delivered[k];
    OrderedValues(ledger, batches, s.released, i, j, k, l);
    if i < k || (i == k && j < l) { BeforeInLonger(ledger, s.canonical, x, y); }
  }

  lemma OrderedValues(ledger: seq<Id>, batches: seq<Batch>, released: set<Id>, i: nat, j: nat, k: nat, l: nat)
    requires Arranged(ledger, batches, released) && i < |batches| && j < |batches[i].ids|
    requires k < |batches| && l < |batches[k].ids|
    ensures batches[i].ids[j].run == batches[i].run && batches[i].ids[j] in ledger
    ensures i < k || (i == k && j < l) ==> Before(ledger, batches[i].ids[j], batches[k].ids[l])
  {
    var starts :| Placed(ledger, batches, released, starts);
    InLedger(ledger, batches, released, starts, i, j);
    if i < k || (i == k && j < l) { PlacesOrdered(ledger, batches, released, starts, i, j, k, l); }
  }

  // What a step does with results: delivered batches stay, and only a settlement, with no
  // task and no flight left, releases, and then exactly what is pending.
  lemma StepOwnership(s: State, s': State)
    requires Next(s, s')
    ensures s.delivered <= s'.delivered && s.released <= s'.released && s.canonical <= s'.canonical
    ensures s'.released != s.released ==>
              && NoTasks(s) && s.flight == NoFlight && s'.phase == Idle
              && s'.released == s.released + (set id | id in s.pending) && s'.pending == []
    ensures s'.delivered != s.delivered ==>
              && s.flight == Live && s.phase == Active
              && s'.delivered == s.delivered + [Batch(s.run, s.pending)] && s'.pending == []
  {
  }

  ghost predicate Grows(run: seq<State>) {
    forall i :: 0 <= i < |run| - 1 ==>
      run[i].delivered <= run[i + 1].delivered && run[i].released <= run[i + 1].released
  }

  lemma {:induction false} OwnedLater(run: seq<State>, i: nat, j: nat)
    requires Grows(run) && i <= j < |run|
    ensures run[i].delivered <= run[j].delivered && run[i].released <= run[j].released
    decreases j
  {
    if i < j {
      OwnedLater(run, i, j - 1);
      assert run[j - 1].delivered <= run[j - 1 + 1].delivered;
    }
  }

  // A delivered or released result never becomes pending again.
  lemma NeverRequeued(run: seq<State>, id: Id, i: nat, j: nat)
    requires IsRun(run) && i <= j < |run|
    requires Delivered(run[i], id) || id in run[i].released
    ensures id !in run[j].pending
    ensures Delivered(run[i], id) ==> Delivered(run[j], id) && id !in run[j].released
    ensures id in run[i].released ==> id in run[j].released && !Delivered(run[j], id)
  {
    forall k | 0 <= k < |run| - 1
      ensures run[k].delivered <= run[k + 1].delivered && run[k].released <= run[k + 1].released
    {
      StepOwnership(run[k], run[k + 1]);
    }
    OwnedLater(run, i, j);
    if k: nat, l: nat :| DeliveredAt(run[i], id, k, l) {
      assert DeliveredAt(run[j], id, k, l);
    }
    RunKeeps(run, j);
    PublishedIsOwned(run[j], id);
    OwnershipConserved(run, j, id);
  }

  // When a run is over, every result committed in it or before has been published, and
  // delivered or released.
  lemma SettledLeavesNothing(run: seq<State>, n: nat, id: Id)
    requires IsRun(run) && n < |run| && run[n].phase == Idle
    ensures NoTasks(run[n]) && run[n].flight == NoFlight && run[n].releaseFenced
    ensures id in run[n].canonical <==> Delivered(run[n], id) || id in run[n].released
  {
    RunKeeps(run, n);
    PublishedIsOwned(run[n], id);
  }
}
