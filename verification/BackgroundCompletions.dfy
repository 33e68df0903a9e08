// Delivery of finished background jobs to the actors that own them.
module BackgroundCompletions {
  import opened SetFacts

  datatype Job = Job(owner: nat, id: nat)

  datatype State = State(
    flight: set<Job>,
    reserved: seq<Job>,
    published: set<Job>,
    sent: set<Job>,
    failed: set<Job>,
    ready: set<nat>,
    checkpoint: set<nat>,
    admitted: seq<Job>,
    stopping: bool,
    closed: bool,
    finished: set<nat>
  )

  // ---------- the steps ----------

  function OfOwner(jobs: seq<Job>, owner: nat): seq<Job> {
    if jobs == [] then []
    else
      var last := jobs[|jobs| - 1];
      OfOwner(jobs[..|jobs| - 1], owner) + if last.owner == owner then [last] else []
  }

  function Without(jobs: seq<Job>, done: seq<Job>): seq<Job> {
    if jobs == [] then []
    else
      var last := jobs[|jobs| - 1];
      Without(jobs[..|jobs| - 1], done) + if last in done then [] else [last]
  }

  // The reserved jobs of an owner that are not admitted yet, oldest first.
  function Waiting(s: State, owner: nat): seq<Job> {
    Without(OfOwner(s.reserved, owner), s.admitted)
  }

  ghost predicate Init(s: State) {
    s == State({}, [], {}, {}, {}, {}, {}, [], false, false, {})
  }

  ghost predicate Launch(capacity: nat, s: State, s': State, j: Job) {
    && !s.stopping && j !in s.sent && j !in s.flight && |s.flight| < capacity
    && s' == s.(flight := s.flight + {j})
  }

  // Durable reservation and publication wait for no actor.
  ghost predicate Persist(s: State, s': State, j: Job) {
    && j in s.flight && j !in s.reserved
    && s' == s.(reserved := s.reserved + [j], published := s.published + {j})
  }

  ghost predicate Success(s: State, s': State, j: Job) {
    && j in s.flight && j in s.reserved && j.owner in s.ready
    && s' == s.(flight := s.flight - {j}, sent := s.sent + {j})
  }

  // A failed dispatch may be launched again, and may fail again.
  ghost predicate Failure(s: State, s': State, j: Job) {
    && j in s.flight && j in s.reserved
    && s' == s.(flight := s.flight - {j}, failed := s.failed + {j})
  }

  ghost predicate Admit(s: State, s': State, j: Job) {
    && j in s.reserved && j !in s.admitted && j.owner in s.ready && j.owner in s.checkpoint
    && Waiting(s, j.owner) != [] && j == Waiting(s, j.owner)[0]
    && s' == s.(admitted := s.admitted + [j])
  }

  ghost predicate OwnerStep(s: State, s': State, owner: nat) {
    || (owner !in s.ready && s' == s.(ready := s.ready + {owner}))
    || (owner !in s.checkpoint && s' == s.(checkpoint := s.checkpoint + {owner}))
    || (owner !in s.finished && s' == s.(finished := s.finished + {owner}))
  }

  ghost predicate Stop(s: State, s': State) {
    !s.stopping && s' == s.(stopping := true)
  }

  ghost predicate Close(s: State, s': State) {
    s.stopping && s.flight == {} && !s.closed && s' == s.(closed := true)
  }

  ghost predicate JobStep(capacity: nat, s: State, s': State, j: Job) {
    Launch(capacity, s, s', j) || Persist(s, s', j) || Success(s, s', j) || Failure(s, s', j) || Admit(s, s', j)
  }

  ghost predicate Next(capacity: nat, s: State, s': State) {
    || (exists j :: JobStep(capacity, s, s', j)) || (exists owner :: OwnerStep(s, s', owner))
    || Stop(s, s') || Close(s, s')
  }

  ghost predicate IsRun(capacity: nat, run: seq<State>) {
    && |run| > 0 && Init(run[0])
    && forall i :: 0 <= i < |run| - 1 ==> Next(capacity, run[i], run[i + 1])
  }

  // ---------- the invariant ----------

  ghost predicate NoDuplicates(jobs: seq<Job>) {
    forall i, j :: 0 <= i < j < |jobs| ==> jobs[i] != jobs[j]
  }

  ghost predicate Handoff(capacity: nat, s: State) {
    && |s.flight| <= capacity && (s.closed ==> s.stopping && s.flight == {})
    && s.flight !! s.sent
    && (forall j :: j in s.sent ==> j in s.reserved && j.owner in s.ready)
    && (forall j :: j in s.reserved <==> j in s.published)
    && (forall j :: j in s.admitted ==> j in s.reserved && j.owner in s.checkpoint)
    && NoDuplicates(s.reserved) && NoDuplicates(s.admitted)
  }

  ghost predicate OwnerOrder(s: State) {
    forall owner: nat :: OfOwner(s.admitted, owner) <= OfOwner(s.reserved, owner)
  }

  ghost predicate Inv(capacity: nat, s: State) {
    Handoff(capacity, s) && OwnerOrder(s)
  }

  // ---------- one owner's jobs ----------

  lemma OfOwnerAppend(jobs: seq<Job>, j: Job, owner: nat)
    ensures OfOwner(jobs + [j], owner) == OfOwner(jobs, owner) + if j.owner == owner then [j] else []
  {
    assert (jobs + [j])[..|jobs|] == jobs;
  }

  lemma {:induction false} OfOwnerElements(jobs: seq<Job>, owner: nat)
    ensures forall j :: j in OfOwner(jobs, owner) <==> j in jobs && j.owner == owner
    ensures NoDuplicates(jobs) ==> NoDuplicates(OfOwner(jobs, owner))
  {
    if jobs != [] {
      var rest, last := jobs[..|jobs| - 1], jobs[|jobs| - 1];
      OfOwnerElements(rest, owner);
      assert jobs == rest + [last];
      if NoDuplicates(jobs) {
        assert NoDuplicates(rest) && last !in rest;
        var kept := OfOwner(rest, owner);
        assert last !in kept;
        assert forall k :: 0 <= k < |kept| ==> kept[k] in kept;
      }
    }
  }

  // Taking a prefix out of a sequence without duplicates leaves its rest.
  lemma {:induction false} WithoutPrefix(jobs: seq<Job>, prefix: seq<Job>, done: seq<Job>)
    requires NoDuplicates(jobs) && prefix <= jobs
    requires forall j :: j in jobs ==> (j in done <==> j in prefix)
    ensures Without(jobs, done) == jobs[|prefix|..]
  {
    if jobs != [] {
      var n := |jobs| - 1;
      var rest, last := jobs[..n], jobs[n];
      assert jobs == rest + [last];
      if |prefix| == |jobs| {
        assert prefix == jobs;
        AllDone(jobs, done);
      } else {
        assert prefix <= rest && last !in prefix;
        WithoutPrefix(rest, prefix, done);
        assert jobs[|prefix|..] == rest[|prefix|..] + [last];
      }
    }
  }

  lemma {:induction false} AllDone(jobs: seq<Job>, done: seq<Job>)
    requires forall j :: j in jobs ==> j in done
    ensures Without(jobs, done) == []
  {
    if jobs != [] {
      assert jobs[|jobs| - 1] in jobs;
      AllDone(jobs[..|jobs| - 1], done);
    }
  }

  // What waits is what is reserved beyond what is admitted.
  lemma WaitingIsRest(capacity: nat, s: State, owner: nat)
    requires Inv(capacity, s)
    ensures OfOwner(s.reserved, owner) == OfOwner(s.admitted, owner) + Waiting(s, owner)
  {
    var reserved, admitted := OfOwner(s.reserved, owner), OfOwner(s.admitted, owner);
    OfOwnerElements(s.reserved, owner);
    OfOwnerElements(s.admitted, owner);
    assert admitted <= reserved;
    WithoutPrefix(reserved, admitted, s.admitted);
  }

  // ---------- every step keeps it ----------

  lemma PersistKeeps(capacity: nat, s: State, s': State, j: Job)
    requires Inv(capacity, s) && Persist(s, s', j)
    ensures Inv(capacity, s')
  {
    forall owner: nat ensures OfOwner(s'.admitted, owner) <= OfOwner(s'.reserved, owner) {
      OfOwnerAppend(s.reserved, j, owner);
      assert OfOwner(s.admitted, owner) <= OfOwner(s.reserved, owner);
    }
  }

  lemma AdmitKeeps(capacity: nat, s: State, s': State, j: Job)
    requires Inv(capacity, s) && Admit(s, s', j)
    ensures Inv(capacity, s')
  {
    forall owner: nat ensures OfOwner(s'.admitted, owner) <= OfOwner(s'.reserved, owner) {
      OfOwnerAppend(s.admitted, j, owner);
      WaitingIsRest(capacity, s, owner);
    }
  }

  // A step that reserves and admits nothing keeps the order of what is.
  lemma OthersKeep(capacity: nat, s: State, s': State)
    requires Inv(capacity, s) && Handoff(capacity, s') && s'.reserved == s.reserved && s'.admitted == s.admitted
    ensures Inv(capacity, s')
  {
    forall owner: nat ensures OfOwner(s'.admitted, owner) <= OfOwner(s'.reserved, owner) {
      assert OfOwner(s.admitted, owner) <= OfOwner(s.reserved, owner);
    }
  }

  lemma DispatchKeeps(capacity: nat, s: State, s': State, j: Job)
    requires Handoff(capacity, s) && (Launch(capacity, s, s', j) || Success(s, s', j) || Failure(s, s', j))
    ensures Handoff(capacity, s')
  {
    assert |s.flight + {j}| <= |s.flight| + 1;
    SubsetSize(s.flight - {j}, s.flight);
  }

  lemma StepKeeps(capacity: nat, s: State, s': State)
    requires Inv(capacity, s) && Next(capacity, s, s')
    ensures Inv(capacity, s')
  {
    if j :| JobStep(capacity, s, s', j) {
      if Persist(s, s', j) { PersistKeeps(capacity, s, s', j); }
      else if Admit(s, s', j) { AdmitKeeps(capacity, s, s', j); }
      else {
        DispatchKeeps(capacity, s, s', j);
        OthersKeep(capacity, s, s');
      }
    } else {
      OthersKeep(capacity, s, s');
    }
  }

  lemma {:induction false} RunKeeps(capacity: nat, run: seq<State>, n: nat)
    requires IsRun(capacity, run) && n < |run|
    ensures Inv(capacity, run[n])
  {
    if n > 0 {
      RunKeeps(capacity, run, n - 1);
      StepKeeps(capacity, run[n - 1], run[n]);
    }
  }

  // ---------- what every run guarantees ----------

  // Each owner's admitted jobs are a prefix of its reserved ones, all of them once.
  lemma AdmittedPrefix(capacity: nat, run: seq<State>, n: nat, owner: nat)
    requires IsRun(capacity, run) && n < |run|
    ensures OfOwner(run[n].admitted, owner) <= OfOwner(run[n].reserved, owner)
    ensures NoDuplicates(run[n].admitted) && NoDuplicates(run[n].reserved)
  {
    RunKeeps(capacity, run, n);
  }

  // Bounded dispatch; only reserved jobs of ready owners are handed over; what is reserved
  // is visible; nothing is admitted before its owner's checkpoint.
  lemma HandoffInEveryRun(capacity: nat, run: seq<State>, n: nat, j: Job)
    requires IsRun(capacity, run) && n < |run|
    ensures |run[n].flight| <= capacity && (run[n].closed ==> run[n].flight == {})
    ensures j in run[n].sent ==> j in run[n].reserved && j.owner in run[n].ready
    ensures j in run[n].reserved <==> j in run[n].published
    ensures j in run[n].admitted ==> j in run[n].published && j.owner in run[n].checkpoint
  {
    RunKeeps(capacity, run, n);
  }

  // No owner is blocked by another or by the end of its own run: once it is ready and has
  // its checkpoint, its oldest waiting job can be admitted, and none can exactly when all
  // its reserved jobs are admitted.
  lemma AdmissionNotBlocked(capacity: nat, run: seq<State>, n: nat, owner: nat)
    requires IsRun(capacity, run) && n < |run|
    requires owner in run[n].ready && owner in run[n].checkpoint
    ensures (exists j: Job, s': State :: j.owner == owner && Admit(run[n], s', j))
            <==> OfOwner(run[n].admitted, owner) != OfOwner(run[n].reserved, owner)
  {
    var s := run[n];
    RunKeeps(capacity, run, n);
    WaitingIsRest(capacity, s, owner);
    if Waiting(s, owner) != [] {
      var j := Waiting(s, owner)[0];
      OfOwnerElements(s.reserved, owner);
      OfOwnerElements(s.admitted, owner);
      assert OfOwner(s.reserved, owner)[|OfOwner(s.admitted, owner)|] == j;
      assert j !in OfOwner(s.admitted, owner);
      assert Admit(s, s.(admitted := s.admitted + [j]), j);
    }
  }

  // ---------- the scan ----------

  datatype Phase = Idle | Reading | Admitting

  datatype Scan = Scan(
    phase: Phase,
    owned: set<Job>,
    snapshot: set<Job>,
    visited: set<Job>,
    flight: set<Job>,
    sent: set<Job>,
    failures: multiset<Job>,
    retried: set<Job>,
    replayed: set<Job>,
    counts: multiset<Job>
  )

  ghost predicate ScanInit(c: Scan) {
    c == Scan(Idle, {}, {}, {}, {}, {}, multiset{}, {}, {}, multiset{})
  }

  ghost predicate ScanBegin(c: Scan, c': Scan) {
    c.phase == Idle && c' == c.(phase := Reading, owned := c.flight)
  }

  // The snapshot is as old as the read: jobs may be sent before they are visited.
  ghost predicate ScanRead(jobs: set<Job>, c: Scan, c': Scan) {
    c.phase == Reading && c' == c.(phase := Admitting, snapshot := jobs - c.sent, visited := {})
  }

  ghost predicate ScanVisit(capacity: nat, c: Scan, c': Scan, j: Job) {
    && c.phase == Admitting && j in c.snapshot && j !in c.visited
    && var admit := j !in c.flight && |c.flight| < capacity && j !in c.owned;
       c' == if admit then
               c.(visited := c.visited + {j}, flight := c.flight + {j}, counts := c.counts + multiset{j},
                  retried := if j in c.failures then c.retried + {j} else c.retried,
                  replayed := if j in c.sent then c.replayed + {j} else c.replayed)
             else c.(visited := c.visited + {j})
  }

  ghost predicate ScanFinish(c: Scan, c': Scan) {
    c.phase == Admitting && c.visited == c.snapshot && c' == c.(phase := Idle)
  }

  ghost predicate ScanSucceed(c: Scan, c': Scan, j: Job) {
    j in c.flight && c' == c.(flight := c.flight - {j}, sent := c.sent + {j})
  }

  ghost predicate ScanFail(c: Scan, c': Scan, j: Job) {
    j in c.flight && c' == c.(flight := c.flight - {j}, failures := c.failures + multiset{j})
  }

  ghost predicate ScanNext(capacity: nat, jobs: set<Job>, c: Scan, c': Scan) {
    || ScanBegin(c, c') || ScanRead(jobs, c, c') || ScanFinish(c, c')
    || (exists j :: ScanVisit(capacity, c, c', j) || ScanSucceed(c, c', j) || ScanFail(c, c', j))
  }

  ghost predicate IsScanRun(capacity: nat, jobs: set<Job>, run: seq<Scan>) {
    && |run| > 0 && ScanInit(run[0])
    && forall i :: 0 <= i < |run| - 1 ==> ScanNext(capacity, jobs, run[i], run[i + 1])
  }

  // Whatever has been sent since the read was in flight when the scan began, or was
  // dispatched by the scan itself.
  ghost predicate ScanInv(capacity: nat, c: Scan) {
    && |c.flight| <= capacity && |c.owned| <= capacity && c.replayed == {} && c.flight !! c.sent
    && (c.phase == Reading ==> c.flight <= c.owned)
    && (c.phase == Admitting ==> c.flight <= c.owned + c.visited && c.snapshot * c.sent <= c.owned + c.visited)
    && (forall j :: j in c.failures && (j in c.flight || j in c.sent) ==> j in c.retried)
    && forall j :: c.counts[j] == c.failures[j] + (if j in c.flight || j in c.sent then 1 else 0)
  }

  lemma ScanVisitKeeps(capacity: nat, c: Scan, c': Scan, j: Job)
    requires ScanInv(capacity, c) && ScanVisit(capacity, c, c', j)
    ensures ScanInv(capacity, c')
  {
    assert j in c.snapshot * c.sent <==> j in c.sent;
  }

  lemma ScanEndKeeps(capacity: nat, c: Scan, c': Scan, j: Job)
    requires ScanInv(capacity, c) && (ScanSucceed(c, c', j) || ScanFail(c, c', j))
    ensures ScanInv(capacity, c')
  {
    SubsetSize(c.flight - {j}, c.flight);
  }

  lemma ScanKeeps(capacity: nat, jobs: set<Job>, c: Scan, c': Scan)
    requires ScanInv(capacity, c) && ScanNext(capacity, jobs, c, c')
    ensures ScanInv(capacity, c')
  {
    if j :| ScanVisit(capacity, c, c', j) || ScanSucceed(c, c', j) || ScanFail(c, c', j) {
      if ScanVisit(capacity, c, c', j) { ScanVisitKeeps(capacity, c, c', j); }
      else { ScanEndKeeps(capacity, c, c', j); }
    }
  }

  lemma SentStep(capacity: nat, jobs: set<Job>, c: Scan, c': Scan, job: Job)
    requires ScanInv(capacity, c) && ScanInv(capacity, c') && ScanNext(capacity, jobs, c, c') && job in c.sent
    ensures job in c'.sent && c'.counts[job] == c.counts[job]
  {
    assert job !in c.flight;
  }

  lemma {:induction false} ScanRunKeeps(capacity: nat, jobs: set<Job>, run: seq<Scan>, n: nat)
    requires IsScanRun(capacity, jobs, run) && n < |run|
    ensures ScanInv(capacity, run[n])
  {
    if n > 0 {
      ScanRunKeeps(capacity, jobs, run, n - 1);
      ScanKeeps(capacity, jobs, run[n - 1], run[n]);
    }
  }

  // However stale the read is, a sent job is never dispatched again: a job is dispatched
  // once more than it has failed while it is in flight or sent, and as often otherwise.
  lemma NeverReplayed(capacity: nat, jobs: set<Job>, run: seq<Scan>, n: nat, j: Job)
    requires IsScanRun(capacity, jobs, run) && n < |run|
    ensures run[n].replayed == {}
    ensures run[n].counts[j] == run[n].failures[j] + (if j in run[n].flight || j in run[n].sent then 1 else 0)
    ensures j in run[n].sent && j in run[n].failures ==> j in run[n].retried
    ensures |run[n].flight| <= capacity && |run[n].owned| <= capacity
  {
    ScanRunKeeps(capacity, jobs, run, n);
  }

  // A job that has been sent stays sent and is not dispatched by any later step.
  lemma {:induction false} SentIsFinal(capacity: nat, jobs: set<Job>, run: seq<Scan>, i: nat, j: nat, job: Job)
    requires IsScanRun(capacity, jobs, run) && i <= j < |run| && job in run[i].sent
    ensures job in run[j].sent && run[j].counts[job] == run[i].counts[job]
    decreases j
  {
    if i < j {
      SentIsFinal(capacity, jobs, run, i, j - 1, job);
      ScanRunKeeps(capacity, jobs, run, j - 1);
      ScanRunKeeps(capacity, jobs, run, j);
      SentStep(capacity, jobs, run[j - 1], run[j], job);
    }
  }
}
