// Restoring a session's history from a bookmark and a summary of what lies before it,
// across appends, rewinds and restarts.
module ColdHistoryAnchor {
  // Entry ids are never used twice; 0 is none.
  type EntryId = nat

  datatype Summary = Summary(entry: EntryId, facts: set<EntryId>)

  // The context: what the bookmark covers and what is kept raw after it.
  datatype Context = Context(covers: set<EntryId>, raw: set<EntryId>)

  datatype State = State(
    branch: seq<EntryId>,
    nextId: EntryId,
    bookmark: EntryId,
    saved: set<EntryId>,      // what the persisted checkpoint covers, kept by a rewind
    summary: Summary,
    restored: set<EntryId>,
    projected: Context
  )

  function Elements(s: seq<EntryId>): set<EntryId> { set id | id in s }

  function Position(branch: seq<EntryId>, id: EntryId): (i: nat)
    requires id in branch
    ensures i < |branch| && branch[i] == id
  {
    if branch[0] == id then 0 else 1 + Position(branch[1..], id)
  }

  function Upto(branch: seq<EntryId>, id: EntryId): set<EntryId>
    requires id in branch
  {
    Elements(branch[..Position(branch, id) + 1])
  }

  function After(branch: seq<EntryId>, id: EntryId): set<EntryId>
    requires id in branch
  {
    Elements(branch[Position(branch, id) + 1..])
  }

  // ---------- reading everything, and the shortcuts ----------

  function FullContext(s: State): Context {
    if s.bookmark != 0 && s.bookmark in s.branch then
      Context(Upto(s.branch, s.bookmark), After(s.branch, s.bookmark))
    else Context({}, Elements(s.branch))
  }

  // A summary counts only while its entry is on the branch.
  predicate SummaryUsable(s: State) { s.summary.entry != 0 && s.summary.entry in s.branch }

  function Restore(s: State): set<EntryId> {
    if SummaryUsable(s) then s.summary.facts + After(s.branch, s.summary.entry) else Elements(s.branch)
  }

  // ---------- the steps ----------

  ghost predicate Init(s: State) {
    s == State([], 1, 0, {}, Summary(0, {}), {}, Context({}, {}))
  }

  ghost predicate AppendEntry(s: State, s': State) {
    s' == s.(branch := s.branch + [s.nextId], nextId := s.nextId + 1, restored := s.restored + {s.nextId},
             projected := s.projected.(raw := s.projected.raw + {s.nextId}))
  }

  ghost predicate Checkpoint(s: State, s': State) {
    && |s.branch| > 0
    && s' == s.(bookmark := s.branch[|s.branch| - 1], saved := Elements(s.branch),
                projected := Context(Elements(s.branch), {}))
  }

  ghost predicate WriteSummary(s: State, s': State) {
    && s.bookmark != 0 && s.bookmark in s.branch
    && s' == s.(summary := Summary(s.bookmark, Upto(s.branch, s.bookmark)))
  }

  ghost predicate Restart(s: State, s': State) {
    s' == s.(restored := Restore(s), projected := FullContext(s))
  }

  ghost predicate Rewind(s: State, s': State, keep: nat) {
    && keep < |s.branch|
    && var branch := s.branch[..keep];
       s' == s.(branch := branch, restored := Elements(branch),
                projected := if s.bookmark != 0 && s.bookmark in branch
                             then s.projected.(raw := s.projected.raw * Elements(branch))
                             else Context({}, Elements(branch)))
  }

  ghost predicate Next(s: State, s': State) {
    || AppendEntry(s, s') || Checkpoint(s, s') || WriteSummary(s, s') || Restart(s, s')
    || (exists keep: nat :: Rewind(s, s', keep))
  }

  ghost predicate IsRun(run: seq<State>) {
    && |run| > 0 && Init(run[0])
    && forall i :: 0 <= i < |run| - 1 ==> Next(run[i], run[i + 1])
  }

  // ---------- the invariant ----------

  ghost predicate Ids(s: State) {
    && s.nextId > 0
    && (forall i :: 0 <= i < |s.branch| ==> 0 < s.branch[i] < s.nextId)
    && Increasing(s.branch)
    && s.bookmark < s.nextId && s.summary.entry < s.nextId
  }

  ghost predicate Shortcuts(s: State) {
    && (SummaryUsable(s) ==> s.summary.facts == Upto(s.branch, s.summary.entry))
    && s.restored == Elements(s.branch)
    && s.projected == FullContext(s)
  }

  ghost predicate Inv(s: State) { Ids(s) && Shortcuts(s) }

  // ---------- positions ----------

  ghost predicate Increasing(branch: seq<EntryId>) {
    forall i, j :: 0 <= i < j < |branch| ==> branch[i] < branch[j]
  }

  // On an increasing branch, position and id order agree.
  lemma HalvesById(branch: seq<EntryId>, id: EntryId)
    requires Increasing(branch) && id in branch
    ensures forall x :: x in Upto(branch, id) <==> x in branch && x <= id
    ensures forall x :: x in After(branch, id) <==> x in branch && x > id
  {
    var p := Position(branch, id);
    var upto, after := branch[..p + 1], branch[p + 1..];
    assert branch == upto + after;
    assert forall k :: 0 <= k < |upto| ==> upto[k] == branch[k] && upto[k] <= id;
    assert forall k :: 0 <= k < |after| ==> after[k] == branch[p + 1 + k] && after[k] > id;
  }

  // ---------- every step keeps it ----------

  lemma AppendIds(s: State, s': State)
    requires Ids(s) && AppendEntry(s, s')
    ensures Ids(s') && Elements(s'.branch) == Elements(s.branch) + {s.nextId}
  {
  }

  lemma AppendKeeps(s: State, s': State)
    requires Inv(s) && AppendEntry(s, s')
    ensures Inv(s')
  {
    AppendIds(s, s');
    if s.bookmark in s.branch { AppendHalves(s.branch, s.nextId, s.bookmark); }
    if s.summary.entry in s.branch { AppendHalves(s.branch, s.nextId, s.summary.entry); }
  }

  lemma AppendHalves(branch: seq<EntryId>, next: EntryId, id: EntryId)
    requires Increasing(branch) && Increasing(branch + [next]) && id in branch && id < next
    ensures Upto(branch + [next], id) == Upto(branch, id)
    ensures After(branch + [next], id) == After(branch, id) + {next}
  {
    HalvesById(branch, id);
    HalvesById(branch + [next], id);
  }

  lemma RewindHalves(branch: seq<EntryId>, keep: nat, id: EntryId)
    requires Increasing(branch) && keep <= |branch| && id in branch[..keep]
    ensures Upto(branch[..keep], id) == Upto(branch, id)
    ensures After(branch[..keep], id) == After(branch, id) * Elements(branch[..keep])
  {
    var kept := branch[..keep];
    HalvesById(branch, id);
    HalvesById(kept, id);
    var k :| 0 <= k < keep && kept[k] == id;
    forall x | x in branch && x <= id ensures x in kept {
      var i :| 0 <= i < |branch| && branch[i] == x;
      assert i <= k;
      assert kept[i] == x;
    }
  }

  lemma CheckpointKeeps(s: State, s': State)
    requires Inv(s) && Checkpoint(s, s')
    ensures Inv(s')
  {
    HalvesById(s.branch, s'.bookmark);
  }

  lemma RestartKeeps(s: State, s': State)
    requires Inv(s) && Restart(s, s')
    ensures Inv(s')
  {
    if SummaryUsable(s) { HalvesById(s.branch, s.summary.entry); }
  }

  lemma RewindKeeps(s: State, s': State, keep: nat)
    requires Inv(s) && Rewind(s, s', keep)
    ensures Inv(s')
  {
    if s.bookmark in s'.branch { RewindHalves(s.branch, keep, s.bookmark); }
    if s.summary.entry in s'.branch { RewindHalves(s.branch, keep, s.summary.entry); }
  }

  lemma StepKeeps(s: State, s': State)
    requires Inv(s) && Next(s, s')
    ensures Inv(s')
  {
    if AppendEntry(s, s') { AppendKeeps(s, s'); }
    else if Checkpoint(s, s') { CheckpointKeeps(s, s'); }
    else if Restart(s, s') { RestartKeeps(s, s'); }
    else if keep: nat :| Rewind(s, s', keep) { RewindKeeps(s, s', keep); }
  }

  lemma {:induction false} RunKeeps(run: seq<State>, n: nat)
    requires IsRun(run) && n < |run|
    ensures Inv(run[n])
  {
    if n > 0 {
      RunKeeps(run, n - 1);
      StepKeeps(run[n - 1], run[n]);
    }
  }

  // ---------- what every history guarantees ----------

  // A restart restores exactly what reading the whole file gives, and so does every step
  // between restarts.
  lemma FactsMatchFullRead(run: seq<State>, n: nat)
    requires IsRun(run) && n < |run|
    ensures Restore(run[n]) == Elements(run[n].branch) == run[n].restored
  {
    RunKeeps(run, n);
    if SummaryUsable(run[n]) { HalvesById(run[n].branch, run[n].summary.entry); }
  }

  // The context divides the branch at the bookmark: together all of it, nothing twice.
  lemma ContextMatchesFullRead(run: seq<State>, n: nat)
    requires IsRun(run) && n < |run|
    ensures run[n].projected == FullContext(run[n])
    ensures run[n].projected.covers + run[n].projected.raw == Elements(run[n].branch)
    ensures run[n].projected.covers !! run[n].projected.raw
  {
    var s := run[n];
    RunKeeps(run, n);
    if s.bookmark in s.branch {
      HalvesById(s.branch, s.bookmark);
    }
  }
}
