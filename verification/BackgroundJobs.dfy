// Background jobs: operations serialised by the store lock, interleaved with detached
// supervisors, adoption watchers and process deaths that take no lock.
module BackgroundJobs {
  import opened Wrappers
  import opened SetFacts

  const MAX_RUNNING_JOBS := 32

  type JobId = nat

  // A process identity. The start time keeps a reused pid apart from the dead process.
  datatype Identity = Identity(pid: nat, starttime: nat)

  datatype Kind = Launched | Adopted

  datatype Writer = BySupervisor | ByWatcher | ByStop

  datatype Exit = Exit(writer: Writer, code: Option<int>)

  // A job directory: its metadata, with the name under casefold, and its exit record.
  datatype Job = Job(kind: Kind, name: string, identity: Option<Identity>, exit: Option<Exit>)

  // What the holder of the store lock has got to.
  datatype Lock =
    | Free
    | Launching(id: JobId)
    | Spawned(id: JobId, child: Identity)
    | Adopting(id: JobId)
    | Stopping(id: JobId, thenRemove: bool)
    | ReadingExit(id: JobId)
    | WritingExit(id: JobId)
    | Removing(id: JobId)

  datatype State = State(
    jobs: map<JobId, Job>,
    lock: Lock,
    live: set<Identity>,
    everLived: set<Identity>,
    everUsed: set<JobId>,
    supervisors: map<Identity, JobId>,   // whose directory each supervisor writes to
    watchers: map<JobId, Identity>       // which process each adoption watcher polls
  )

  // ---------- observation ----------

  // The exit record wins; without one, the recorded process must be the live one.
  predicate RunningJob(live: set<Identity>, job: Job) {
    job.exit.None? && job.identity.Some? && job.identity.value in live
  }

  predicate Running(s: State, id: JobId) {
    id in s.jobs && RunningJob(s.live, s.jobs[id])
  }

  function RunningIds(s: State): set<JobId> {
    set id | id in s.jobs && Running(s, id)
  }

  predicate NameTaken(s: State, name: string) {
    exists id :: id in s.jobs && Running(s, id) && s.jobs[id].name == name
  }

  predicate FreshId(s: State, id: JobId) { id !in s.everUsed }

  // ---------- launch ----------

  ghost predicate LaunchCheck(s: State, s': State, id: JobId, name: string) {
    && s.lock.Free? && |RunningIds(s)| < MAX_RUNNING_JOBS && FreshId(s, id) && !NameTaken(s, name)
    && s' == s.(jobs := s.jobs[id := Job(Launched, name, None, None)],
                everUsed := s.everUsed + {id}, lock := Launching(id))
  }

  ghost predicate LaunchSpawn(s: State, s': State, child: Identity) {
    && s.lock.Launching? && child !in s.everLived
    && s' == s.(live := s.live + {child}, everLived := s.everLived + {child},
                supervisors := s.supervisors[child := s.lock.id], lock := Spawned(s.lock.id, child))
  }

  // A child that exits at once may be recorded without a start time, matching no process.
  ghost predicate LaunchRecord(s: State, s': State) {
    && s.lock.Spawned? && s.lock.id in s.jobs
    && (|| s' == s.(jobs := s.jobs[s.lock.id := s.jobs[s.lock.id].(identity := Some(s.lock.child))], lock := Free)
        || (s.jobs[s.lock.id].exit.Some? && s' == s.(lock := Free)))
  }

  ghost predicate LaunchFail(s: State, s': State) {
    (s.lock.Launching? || s.lock.Spawned? || s.lock.Adopting?)
    && s' == s.(jobs := s.jobs - {s.lock.id}, lock := Free)
  }

  // ---------- adopt ----------

  ghost predicate AdoptCheck(s: State, s': State, id: JobId, name: string, process: Identity) {
    && s.lock.Free? && |RunningIds(s)| < MAX_RUNNING_JOBS && process in s.live
    && (forall other :: other in s.jobs && Running(s, other) ==> s.jobs[other].identity != Some(process))
    && FreshId(s, id) && !NameTaken(s, name)
    && s' == s.(jobs := s.jobs[id := Job(Adopted, name, Some(process), None)],
                everUsed := s.everUsed + {id}, lock := Adopting(id))
  }

  ghost predicate AdoptWatch(s: State, s': State) {
    && s.lock.Adopting? && s.lock.id in s.jobs && s.jobs[s.lock.id].identity.Some?
    && s' == s.(watchers := s.watchers[s.lock.id := s.jobs[s.lock.id].identity.value], lock := Free)
  }

  // ---------- stop and remove ----------

  ghost predicate StopCheck(s: State, s': State, id: JobId, thenRemove: bool) {
    s.lock.Free? && Running(s, id) && s' == s.(lock := Stopping(id, thenRemove))
  }

  // The signals are deaths of the environment; the operation only waits for the identity.
  ghost predicate StopDead(s: State, s': State) {
    && s.lock.Stopping? && s.lock.id in s.jobs
    && s.jobs[s.lock.id].identity.Some? && s.jobs[s.lock.id].identity.value !in s.live
    && s' == s.(lock := if s.lock.thenRemove then Removing(s.lock.id) else ReadingExit(s.lock.id))
  }

  ghost predicate StopRead(s: State, s': State) {
    && s.lock.ReadingExit? && s.lock.id in s.jobs
    && s' == s.(lock := if s.jobs[s.lock.id].exit.Some? then Free else WritingExit(s.lock.id))
  }

  // An atomic replacement: it does not look again.
  ghost predicate StopWrite(s: State, s': State) {
    && s.lock.WritingExit? && s.lock.id in s.jobs
    && s' == s.(jobs := s.jobs[s.lock.id := s.jobs[s.lock.id].(exit := Some(Exit(ByStop, None)))], lock := Free)
  }

  ghost predicate RemoveStep(s: State, s': State, id: JobId) {
    || (s.lock.Free? && id in s.jobs && !Running(s, id) && s' == s.(jobs := s.jobs - {id}))
    || (s.lock.Removing? && s.lock.id == id && s' == s.(jobs := s.jobs - {id}, lock := Free))
  }

  // The lock holder gives up with an error, or dies: the lock is released, the store stays.
  ghost predicate Release(s: State, s': State) { s' == s.(lock := Free) }

  // ---------- what takes no lock ----------

  ghost predicate Die(s: State, s': State, process: Identity) { s' == s.(live := s.live - {process}) }

  ghost predicate Appear(s: State, s': State, process: Identity) {
    && process !in s.everLived
    && s' == s.(live := s.live + {process}, everLived := s.everLived + {process})
  }

  // Publishing by a hard link fails if a record exists; a removed directory takes none.
  function Linked(jobs: map<JobId, Job>, id: JobId, exit: Exit): map<JobId, Job> {
    if id in jobs && jobs[id].exit.None? then jobs[id := jobs[id].(exit := Some(exit))] else jobs
  }

  ghost predicate SupervisorExit(s: State, s': State, process: Identity, code: Option<int>) {
    && process in s.live && process in s.supervisors
    && s' == s.(jobs := Linked(s.jobs, s.supervisors[process], Exit(BySupervisor, code)))
  }

  ghost predicate WatcherExit(s: State, s': State, id: JobId) {
    && id in s.watchers && s.watchers[id] !in s.live
    && s' == s.(jobs := Linked(s.jobs, id, Exit(ByWatcher, None)), watchers := s.watchers - {id})
  }

  // The steps of launch and adopt, of stop and remove, and those that take no lock.
  ghost predicate HolderStep(s: State, s': State) {
    || (exists id, name :: LaunchCheck(s, s', id, name))
    || (exists child :: LaunchSpawn(s, s', child))
    || LaunchRecord(s, s') || LaunchFail(s, s')
    || (exists id, name, process :: AdoptCheck(s, s', id, name, process))
    || AdoptWatch(s, s')
  }

  ghost predicate StopStep(s: State, s': State) {
    || (exists id, thenRemove :: StopCheck(s, s', id, thenRemove))
    || StopDead(s, s') || StopRead(s, s') || StopWrite(s, s')
    || (exists id :: RemoveStep(s, s', id))
    || Release(s, s')
  }

  ghost predicate FreeStep(s: State, s': State) {
    || (exists process :: Die(s, s', process)) || (exists process :: Appear(s, s', process))
    || (exists process, code :: SupervisorExit(s, s', process, code))
    || (exists id :: WatcherExit(s, s', id))
  }

  ghost predicate Next(s: State, s': State) {
    HolderStep(s, s') || StopStep(s, s') || FreeStep(s, s')
  }

  ghost predicate Init(s: State) {
    s.jobs == map[] && s.lock.Free? && s.live <= s.everLived && s.supervisors == map[] && s.watchers == map[]
  }

  ghost predicate IsRun(run: seq<State>) {
    && |run| > 0 && Init(run[0])
    && forall i :: 0 <= i < |run| - 1 ==> Next(run[i], run[i + 1])
  }

  // ---------- the invariant ----------

  ghost predicate Processes(s: State) {
    && s.live <= s.everLived && s.jobs.Keys <= s.everUsed
    && (forall id :: id in s.jobs && s.jobs[id].identity.Some? ==> s.jobs[id].identity.value in s.everLived)
    && (forall p :: p in s.supervisors ==> p in s.everLived && s.supervisors[p] in s.everUsed)
    && (forall id :: id in s.watchers ==> id in s.everUsed && s.watchers[id] in s.everLived)
  }

  // Only a job's own supervisor writes into a launched job, only a watcher into an adopted.
  ghost predicate Writers(s: State) {
    && (forall p, q :: p in s.supervisors && q in s.supervisors && s.supervisors[p] == s.supervisors[q] ==> p == q)
    && (forall p :: p in s.supervisors && s.supervisors[p] in s.jobs ==>
          var job := s.jobs[s.supervisors[p]];
          job.kind == Launched && (job.identity.Some? ==> job.identity.value == p))
    && (forall id :: id in s.watchers && id in s.jobs ==> s.jobs[id].kind == Adopted)
  }

  ghost predicate Limits(s: State) {
    && |RunningIds(s)| <= MAX_RUNNING_JOBS
    && (forall a, b :: Running(s, a) && Running(s, b) && a != b ==>
          s.jobs[a].name != s.jobs[b].name && s.jobs[a].identity != s.jobs[b].identity)
  }

  ghost predicate Locked(s: State) {
    match s.lock
    case Free => true
    case Launching(id) =>
      && LaunchReserved(s, id) && forall p :: p in s.supervisors ==> s.supervisors[p] != id
    case Spawned(id, child) =>
      && LaunchReserved(s, id) && child in s.supervisors && s.supervisors[child] == id
      && forall other :: other in s.jobs ==> s.jobs[other].identity != Some(child)
    case Adopting(id) =>
      id in s.jobs && s.jobs[id].kind == Adopted && s.jobs[id].identity.Some?
    case Stopping(id, _) => id in s.jobs && s.jobs[id].identity.Some?
    case ReadingExit(id) => id in s.jobs && Dead(s, id)
    case WritingExit(id) => id in s.jobs && Dead(s, id) && (s.jobs[id].kind == Launched ==> s.jobs[id].exit.None?)
    case Removing(id) => id in s.jobs && Dead(s, id)
  }

  ghost predicate Dead(s: State, id: JobId)
    requires id in s.jobs
  {
    s.jobs[id].identity.Some? && s.jobs[id].identity.value !in s.live
  }

  // A launch in progress keeps its slot and its name until it is recorded.
  ghost predicate LaunchReserved(s: State, id: JobId) {
    && id in s.jobs && s.jobs[id].kind == Launched && s.jobs[id].identity.None?
    && |RunningIds(s)| < MAX_RUNNING_JOBS
    && forall other :: Running(s, other) ==> s.jobs[other].name != s.jobs[id].name
  }

  ghost predicate Inv(s: State) {
    Processes(s) && Writers(s) && Limits(s) && Locked(s)
  }

  // ---------- every step keeps it ----------

  // How one step may change what there was: no identity or exit record is forgotten, no job
  // id and no process identity comes back.
  ghost predicate Evolved(s: State, s': State) {
    && s.everUsed <= s'.everUsed && s.everLived <= s'.everLived
    && (forall p :: p in s'.live ==> p in s.live || p !in s.everLived)
    && forall id :: id in s'.jobs ==>
         if id in s.jobs then
           && s'.jobs[id].kind == s.jobs[id].kind && s'.jobs[id].name == s.jobs[id].name
           && (s.jobs[id].identity.Some? ==> s'.jobs[id].identity == s.jobs[id].identity)
           && (s.jobs[id].exit.Some? ==> s'.jobs[id].exit.Some?)
         else id !in s.everUsed
  }

  // A step after which every running job was running before, as it is.
  ghost predicate Shrinks(s: State, s': State) {
    forall id :: Running(s', id) ==>
      Running(s, id) && s'.jobs[id].name == s.jobs[id].name && s'.jobs[id].identity == s.jobs[id].identity
  }

  lemma ShrinksKeeps(s: State, s': State)
    requires Limits(s) && Shrinks(s, s')
    ensures Limits(s') && |RunningIds(s')| <= |RunningIds(s)|
  {
    assert RunningIds(s') <= RunningIds(s);
    SubsetSize(RunningIds(s'), RunningIds(s));
  }

  // A step that adds one running job, for which there is room.
  lemma OneMoreKeeps(s: State, s': State, id: JobId)
    requires Limits(s) && |RunningIds(s)| < MAX_RUNNING_JOBS && id in s'.jobs
    requires forall other :: other != id && Running(s', other) ==>
               && Running(s, other) && s'.jobs[other] == s.jobs[other]
               && s'.jobs[other].name != s'.jobs[id].name && s'.jobs[other].identity != s'.jobs[id].identity
    ensures Limits(s')
  {
    assert RunningIds(s') <= RunningIds(s) + {id};
    SubsetSize(RunningIds(s'), RunningIds(s) + {id});
  }

  lemma LaunchCheckKeeps(s: State, s': State, id: JobId, name: string)
    requires Inv(s) && LaunchCheck(s, s', id, name)
    ensures Inv(s') && Evolved(s, s')
  {
    ShrinksKeeps(s, s');
  }

  lemma LaunchSpawnKeeps(s: State, s': State, child: Identity)
    requires Inv(s) && LaunchSpawn(s, s', child)
    ensures Inv(s') && Evolved(s, s')
  {
    assert forall other :: Running(s', other) <==> Running(s, other);
    ShrinksKeeps(s, s');
  }

  lemma LaunchRecordKeeps(s: State, s': State)
    requires Inv(s) && LaunchRecord(s, s')
    ensures Inv(s') && Evolved(s, s')
  {
    if s'.jobs != s.jobs {
      OneMoreKeeps(s, s', s.lock.id);
    } else {
      ShrinksKeeps(s, s');
    }
  }

  lemma LaunchFailKeeps(s: State, s': State)
    requires Inv(s) && LaunchFail(s, s')
    ensures Inv(s') && Evolved(s, s')
  {
    ShrinksKeeps(s, s');
  }

  lemma AdoptCheckKeeps(s: State, s': State, id: JobId, name: string, process: Identity)
    requires Inv(s) && AdoptCheck(s, s', id, name, process)
    ensures Inv(s') && Evolved(s, s')
  {
    OneMoreKeeps(s, s', id);
  }

  lemma AdoptWatchKeeps(s: State, s': State)
    requires Inv(s) && AdoptWatch(s, s')
    ensures Inv(s') && Evolved(s, s')
  {
    ShrinksKeeps(s, s');
  }

  lemma SameJobsKeep(s: State, s': State)
    requires Processes(s) && Writers(s) && Limits(s) && s' == s.(lock := s'.lock)
    ensures Processes(s') && Writers(s') && Limits(s') && Evolved(s, s')
  {
    assert forall other :: Running(s', other) <==> Running(s, other);
    ShrinksKeeps(s, s');
  }

  lemma LockKeeps(s: State, s': State, id: JobId, thenRemove: bool)
    requires Inv(s)
    requires StopCheck(s, s', id, thenRemove) || StopDead(s, s') || StopRead(s, s') || Release(s, s')
    ensures Inv(s') && Evolved(s, s')
  {
    SameJobsKeep(s, s');
  }

  lemma RemoveKeeps(s: State, s': State, id: JobId)
    requires Inv(s) && RemoveStep(s, s', id)
    ensures Inv(s') && Evolved(s, s')
  {
    ShrinksKeeps(s, s');
  }

  // Only the exit record of one job changes, and a stop about to write knows of it.
  ghost predicate OnlyExit(s: State, s': State, id: JobId) {
    && s' == s.(jobs := s'.jobs, lock := s'.lock, watchers := s'.watchers)
    && s'.jobs.Keys == s.jobs.Keys && s'.watchers.Keys <= s.watchers.Keys
    && (forall w :: w in s'.watchers ==> s'.watchers[w] == s.watchers[w])
    && (forall k :: k in s.jobs ==> s'.jobs[k] == s.jobs[k].(exit := s'.jobs[k].exit))
    && (forall k :: k in s.jobs && k != id ==> s'.jobs[k] == s.jobs[k])
    && (id in s.jobs && s.jobs[id].exit.Some? ==> s'.jobs[id].exit.Some?)
    && (s'.lock == Free || s'.lock == s.lock)
    && (s'.lock == WritingExit(id) && id in s.jobs && s.jobs[id].kind == Launched ==> s'.jobs[id].exit.None?)
  }

  lemma ExitShrinks(s: State, s': State, id: JobId)
    requires OnlyExit(s, s', id)
    ensures Shrinks(s, s')
  {
  }

  lemma ExitLocked(s: State, s': State, id: JobId)
    requires OnlyExit(s, s', id) && Locked(s) && Shrinks(s, s') && |RunningIds(s')| <= |RunningIds(s)|
    ensures Locked(s')
  {
    if s'.lock == s.lock {
      match s.lock
      case Free =>
      case Launching(k) => assert LaunchReserved(s', k);
      case Spawned(k, _) => assert LaunchReserved(s', k);
      case Adopting(_) =>
      case Stopping(_, _) =>
      case ReadingExit(k) => assert Dead(s, k) && Dead(s', k);
      case WritingExit(k) => assert Dead(s, k) && Dead(s', k);
      case Removing(k) => assert Dead(s, k) && Dead(s', k);
    }
  }

  lemma ExitWriters(s: State, s': State, id: JobId)
    requires OnlyExit(s, s', id) && Processes(s) && Writers(s)
    ensures Processes(s') && Writers(s') && Evolved(s, s')
  {
  }

  lemma ExitKeeps(s: State, s': State, id: JobId)
    requires Inv(s) && OnlyExit(s, s', id)
    ensures Inv(s') && Evolved(s, s')
  {
    ExitShrinks(s, s', id);
    ShrinksKeeps(s, s');
    ExitLocked(s, s', id);
    ExitWriters(s, s', id);
  }

  // A live supervisor's job cannot be one whose recorded process a stop saw dead.
  lemma SupervisorOnlyExit(s: State, s': State, process: Identity, code: Option<int>)
    requires Inv(s) && SupervisorExit(s, s', process, code)
    ensures OnlyExit(s, s', s.supervisors[process])
  {
  }

  lemma WatcherOnlyExit(s: State, s': State, id: JobId)
    requires Inv(s) && WatcherExit(s, s', id)
    ensures OnlyExit(s, s', id)
  {
  }

  lemma StopOnlyExit(s: State, s': State)
    requires StopWrite(s, s')
    ensures OnlyExit(s, s', s.lock.id)
  {
  }

  lemma DieKeeps(s: State, s': State, process: Identity)
    requires Inv(s) && Die(s, s', process)
    ensures Inv(s') && Evolved(s, s')
  {
    ShrinksKeeps(s, s');
  }

  lemma AppearKeeps(s: State, s': State, process: Identity)
    requires Inv(s) && Appear(s, s', process)
    ensures Inv(s') && Evolved(s, s')
  {
    assert forall other :: Running(s', other) <==> Running(s, other);
    ShrinksKeeps(s, s');
  }

  lemma HolderKeeps(s: State, s': State)
    requires Inv(s) && HolderStep(s, s')
    ensures Inv(s') && Evolved(s, s')
  {
    if id, name :| LaunchCheck(s, s', id, name) { LaunchCheckKeeps(s, s', id, name); }
    else if child :| LaunchSpawn(s, s', child) { LaunchSpawnKeeps(s, s', child); }
    else if LaunchRecord(s, s') { LaunchRecordKeeps(s, s'); }
    else if LaunchFail(s, s') { LaunchFailKeeps(s, s'); }
    else if id, name, process :| AdoptCheck(s, s', id, name, process) { AdoptCheckKeeps(s, s', id, name, process); }
    else { AdoptWatchKeeps(s, s'); }
  }

  lemma StopKeeps(s: State, s': State)
    requires Inv(s) && StopStep(s, s')
    ensures Inv(s') && Evolved(s, s')
  {
    if id, thenRemove :| StopCheck(s, s', id, thenRemove) { LockKeeps(s, s', id, thenRemove); }
    else if StopDead(s, s') || StopRead(s, s') || Release(s, s') { LockKeeps(s, s', 0, false); }
    else if StopWrite(s, s') {
      StopOnlyExit(s, s');
      ExitKeeps(s, s', s.lock.id);
    } else {
      var id :| RemoveStep(s, s', id);
      RemoveKeeps(s, s', id);
    }
  }

  lemma FreeKeeps(s: State, s': State)
    requires Inv(s) && FreeStep(s, s')
    ensures Inv(s') && Evolved(s, s')
  {
    if process :| Die(s, s', process) { DieKeeps(s, s', process); }
    else if process :| Appear(s, s', process) { AppearKeeps(s, s', process); }
    else if process, code :| SupervisorExit(s, s', process, code) {
      SupervisorOnlyExit(s, s', process, code);
      ExitKeeps(s, s', s.supervisors[process]);
    } else {
      var id :| WatcherExit(s, s', id);
      WatcherOnlyExit(s, s', id);
      ExitKeeps(s, s', id);
    }
  }

  lemma StepKeeps(s: State, s': State)
    requires Inv(s) && Next(s, s')
    ensures Inv(s') && Evolved(s, s')
  {
    if HolderStep(s, s') { HolderKeeps(s, s'); }
    else if StopStep(s, s') { StopKeeps(s, s'); }
    else { FreeKeeps(s, s'); }
  }

  lemma {:induction false} RunKeeps(run: seq<State>, n: nat)
    requires IsRun(run) && n < |run|
    ensures Inv(run[n])
  {
    if n == 0 {
      assert RunningIds(run[0]) == {};
    } else {
      RunKeeps(run, n - 1);
      StepKeeps(run[n - 1], run[n]);
    }
  }

  // What the long-term properties need of a run.
  ghost predicate Settled(run: seq<State>) {
    && (forall i :: 0 <= i < |run| ==> Processes(run[i]))
    && (forall i :: 0 <= i < |run| - 1 ==> Evolved(run[i], run[i + 1]))
    && (forall i :: 0 <= i < |run| - 1 ==> KeepsLaunchedExits(run[i], run[i + 1]))
  }

  ghost predicate KeepsLaunchedExits(s: State, s': State) {
    forall id :: id in s.jobs && id in s'.jobs && s.jobs[id].kind == Launched && s.jobs[id].exit.Some? ==>
      s'.jobs[id].exit == s.jobs[id].exit
  }

  lemma RunSettled(run: seq<State>)
    requires IsRun(run)
    ensures Settled(run)
  {
    forall i | 0 <= i < |run| ensures Processes(run[i]) { RunKeeps(run, i); }
    forall i | 0 <= i < |run| - 1
      ensures Evolved(run[i], run[i + 1]) && KeepsLaunchedExits(run[i], run[i + 1])
    {
      RunKeeps(run, i);
      StepKeeps(run[i], run[i + 1]);
      forall id { ReplacedExactly(run[i], run[i + 1], id); }
    }
  }

  // In every reachable state at most 32 jobs run, under distinct names, in distinct processes.
  lemma LimitsInEveryRun(run: seq<State>, n: nat, a: JobId, b: JobId)
    requires IsRun(run) && n < |run|
    ensures |RunningIds(run[n])| <= MAX_RUNNING_JOBS
    ensures Running(run[n], a) && Running(run[n], b) && a != b ==>
              run[n].jobs[a].name != run[n].jobs[b].name && run[n].jobs[a].identity != run[n].jobs[b].identity
  {
    RunKeeps(run, n);
  }

  // ---------- a job that stops running never runs again ----------

  // Removed, recorded as exited, or with a dead process.
  ghost predicate Stopped(s: State, id: JobId) {
    id in s.everUsed && (id in s.jobs ==> s.jobs[id].exit.Some? || Dead(s, id))
  }

  lemma StoppedStays(s: State, s': State, id: JobId)
    requires Processes(s) && Evolved(s, s') && Stopped(s, id)
    ensures Stopped(s', id)
  {
  }

  lemma RunsUntilStopped(s: State, s': State, id: JobId)
    requires Processes(s) && Evolved(s, s') && Running(s, id)
    ensures Running(s', id) || Stopped(s', id)
  {
  }

  lemma {:induction false} StoppedForever(run: seq<State>, id: JobId, j: nat, k: nat)
    requires Settled(run) && j <= k < |run| && Stopped(run[j], id)
    ensures Stopped(run[k], id)
    decreases k
  {
    if j < k {
      StoppedForever(run, id, j, k - 1);
      StoppedStays(run[k - 1], run[k], id);
    }
  }

  lemma {:induction false} RunningOrStopped(run: seq<State>, id: JobId, i: nat, j: nat)
    requires Settled(run) && i <= j < |run| && Running(run[i], id)
    ensures Running(run[j], id) || Stopped(run[j], id)
    decreases j
  {
    if i < j {
      RunningOrStopped(run, id, i, j - 1);
      if Running(run[j - 1], id) { RunsUntilStopped(run[j - 1], run[j], id); }
      else { StoppedStays(run[j - 1], run[j], id); }
    }
  }

  // Whatever is launched, adopted, stopped or removed afterwards.
  lemma NeverRunsAgain(run: seq<State>, id: JobId, i: nat, j: nat, k: nat)
    requires IsRun(run) && i <= j <= k < |run|
    requires Running(run[i], id) && !Running(run[j], id)
    ensures !Running(run[k], id)
  {
    RunSettled(run);
    RunningOrStopped(run, id, i, j);
    StoppedForever(run, id, j, k);
  }

  // ---------- what the operations can do ----------

  ghost predicate Path(run: seq<State>, s: State, s': State) {
    && |run| > 0 && run[0] == s && run[|run| - 1] == s'
    && forall i :: 0 <= i < |run| - 1 ==> Next(run[i], run[i + 1])
  }

  ghost predicate Leads(s: State, s': State) {
    exists run :: Path(run, s, s')
  }

  lemma Starts(s: State)
    ensures Leads(s, s)
  {
    assert Path([s], s, s);
  }

  lemma Extends(s: State, s': State, s'': State)
    requires Leads(s, s') && Next(s', s'')
    ensures Leads(s, s'')
  {
    var run :| Path(run, s, s');
    assert Path(run + [s''], s, s'');
  }

  // Fewer than 32 jobs have a live recorded process and no exit record, and none of these
  // has the name.
  ghost predicate Room(s: State, name: string) {
    var running := set id | id in s.jobs && s.jobs[id].exit.None?
                            && s.jobs[id].identity.Some? && s.jobs[id].identity.value in s.live;
    |running| < 32 && forall id :: id in running ==> s.jobs[id].name != name
  }

  lemma RoomIsExact(s: State, name: string)
    ensures Room(s, name) <==> |RunningIds(s)| < MAX_RUNNING_JOBS && !NameTaken(s, name)
  {
    var running := set id | id in s.jobs && s.jobs[id].exit.None?
                            && s.jobs[id].identity.Some? && s.jobs[id].identity.value in s.live;
    assert running == RunningIds(s);
  }

  function AfterLaunch(s: State, id: JobId, name: string, child: Identity): State {
    s.(jobs := s.jobs[id := Job(Launched, name, Some(child), None)], everUsed := s.everUsed + {id},
       live := s.live + {child}, everLived := s.everLived + {child}, supervisors := s.supervisors[child := id])
  }

  // With room, a free lock and a fresh id, a launch can succeed, and then its job runs
  // beside all that ran before.
  lemma LaunchSucceeds(s: State, id: JobId, name: string, child: Identity)
    requires Inv(s) && s.lock.Free? && Room(s, name) && id !in s.everUsed && child !in s.everLived
    ensures var s' := AfterLaunch(s, id, name, child);
            Leads(s, s') && forall k :: Running(s', k) <==> k == id || Running(s, k)
  {
    RoomIsExact(s, name);
    var reserved := s.(jobs := s.jobs[id := Job(Launched, name, None, None)],
                       everUsed := s.everUsed + {id}, lock := Launching(id));
    var spawned := reserved.(live := s.live + {child}, everLived := s.everLived + {child},
                             supervisors := s.supervisors[child := id], lock := Spawned(id, child));
    var s' := AfterLaunch(s, id, name, child);
    assert LaunchCheck(s, reserved, id, name);
    assert LaunchSpawn(reserved, spawned, child);
    assert spawned.jobs[id := spawned.jobs[id].(identity := Some(child))] == s'.jobs;
    assert LaunchRecord(spawned, s');
    Starts(s);
    Extends(s, s, reserved);
    Extends(s, reserved, spawned);
    Extends(s, spawned, s');
  }

  function AfterAdopt(s: State, id: JobId, name: string, process: Identity): State {
    s.(jobs := s.jobs[id := Job(Adopted, name, Some(process), None)], everUsed := s.everUsed + {id},
       watchers := s.watchers[id := process])
  }

  // So can the adoption of a live process that no running job has.
  lemma AdoptSucceeds(s: State, id: JobId, name: string, process: Identity)
    requires Inv(s) && s.lock.Free? && Room(s, name) && id !in s.everUsed && process in s.live
    requires forall k :: k in s.jobs && s.jobs[k].identity == Some(process) ==> s.jobs[k].exit.Some?
    ensures var s' := AfterAdopt(s, id, name, process);
            Leads(s, s') && forall k :: Running(s', k) <==> k == id || Running(s, k)
  {
    RoomIsExact(s, name);
    var adopted := s.(jobs := s.jobs[id := Job(Adopted, name, Some(process), None)],
                      everUsed := s.everUsed + {id}, lock := Adopting(id));
    var s' := AfterAdopt(s, id, name, process);
    assert AdoptCheck(s, adopted, id, name, process);
    assert AdoptWatch(adopted, s');
    Starts(s);
    Extends(s, s, adopted);
    Extends(s, adopted, s');
  }

  // A running job's process is dead, and nobody has said how it ended but the stop.
  function AfterStop(s: State, id: JobId): State
    requires Running(s, id)
  {
    s.(jobs := s.jobs[id := s.jobs[id].(exit := Some(Exit(ByStop, None)))],
       live := s.live - {s.jobs[id].identity.value})
  }

  lemma Stops(s: State, id: JobId, thenRemove: bool)
    requires s.lock.Free? && Running(s, id)
    ensures var process := s.jobs[id].identity.value;
            Leads(s, s.(live := s.live - {process}, lock := if thenRemove then Removing(id) else ReadingExit(id)))
  {
    var process := s.jobs[id].identity.value;
    var waiting := s.(lock := Stopping(id, thenRemove));
    var killed := waiting.(live := s.live - {process});
    var after := killed.(lock := if thenRemove then Removing(id) else ReadingExit(id));
    assert StopCheck(s, waiting, id, thenRemove);
    assert Die(waiting, killed, process);
    assert StopDead(killed, after);
    Starts(s);
    Extends(s, s, waiting);
    Extends(s, waiting, killed);
    Extends(s, killed, after);
  }

  // A running job can be stopped, and if its process leaves no record the stop does.
  lemma StopSucceeds(s: State, id: JobId)
    requires s.lock.Free? && Running(s, id)
    ensures Leads(s, AfterStop(s, id)) && !Running(AfterStop(s, id), id)
  {
    var reading := s.(live := s.live - {s.jobs[id].identity.value}, lock := ReadingExit(id));
    var writing := reading.(lock := WritingExit(id));
    Stops(s, id, false);
    assert StopRead(reading, writing);
    assert StopWrite(writing, AfterStop(s, id));
    Extends(s, reading, writing);
    Extends(s, writing, AfterStop(s, id));
  }

  // Every job can be removed: at once if it is not running, otherwise by a stop first.
  lemma RemoveSucceeds(s: State, id: JobId)
    requires s.lock.Free? && id in s.jobs
    ensures Leads(s, s.(jobs := s.jobs - {id},
                        live := if Running(s, id) then s.live - {s.jobs[id].identity.value} else s.live))
  {
    if Running(s, id) {
      var after := s.(live := s.live - {s.jobs[id].identity.value});
      var removing := after.(lock := Removing(id));
      Stops(s, id, true);
      assert RemoveStep(removing, after.(jobs := s.jobs - {id}), id);
      Extends(s, removing, after.(jobs := s.jobs - {id}));
    } else {
      assert RemoveStep(s, s.(jobs := s.jobs - {id}), id);
      Starts(s);
      Extends(s, s, s.(jobs := s.jobs - {id}));
    }
  }

  // How a job ended is recorded once it can be: by its supervisor while that lives, by its
  // watcher when the process is dead, each with the first record there is.
  lemma ExitRecorded(s: State, id: JobId, process: Identity, code: Option<int>)
    requires Inv(s) && id in s.jobs && s.jobs[id].exit.None?
    ensures process in s.live && process in s.supervisors && s.supervisors[process] == id ==>
              Next(s, s.(jobs := s.jobs[id := s.jobs[id].(exit := Some(Exit(BySupervisor, code)))]))
    ensures id in s.watchers && s.watchers[id] !in s.live ==>
              Next(s, s.(jobs := s.jobs[id := s.jobs[id].(exit := Some(Exit(ByWatcher, None)))],
                         watchers := s.watchers - {id}))
  {
    if process in s.live && process in s.supervisors && s.supervisors[process] == id {
      assert SupervisorExit(s, s.(jobs := s.jobs[id := s.jobs[id].(exit := Some(Exit(BySupervisor, code)))]),
                            process, code);
    }
    if id in s.watchers && s.watchers[id] !in s.live {
      assert WatcherExit(s, s.(jobs := s.jobs[id := s.jobs[id].(exit := Some(Exit(ByWatcher, None)))],
                               watchers := s.watchers - {id}), id);
    }
  }

  lemma StopStartsNothing(s: State, s': State)
    requires StopStep(s, s')
    ensures Shrinks(s, s')
  {
    if StopWrite(s, s') {
      StopOnlyExit(s, s');
      ExitShrinks(s, s', s.lock.id);
    } else if id :| RemoveStep(s, s', id) {
      assert s'.jobs == s.jobs - {id} && s'.live == s.live;
    } else {
      assert s'.jobs == s.jobs && s'.live == s.live;
    }
  }

  lemma FreeStartsNothing(s: State, s': State)
    requires Inv(s) && FreeStep(s, s')
    ensures Shrinks(s, s')
  {
    if process, code :| SupervisorExit(s, s', process, code) {
      SupervisorOnlyExit(s, s', process, code);
      ExitShrinks(s, s', s.supervisors[process]);
    } else if id :| WatcherExit(s, s', id) {
      WatcherOnlyExit(s, s', id);
      ExitShrinks(s, s', id);
    } else {
      assert s'.jobs == s.jobs && forall p :: p in s'.live ==> p in s.live || p !in s.everLived;
    }
  }

  lemma SpawnStartsNothing(s: State, s': State, child: Identity)
    requires Processes(s) && LaunchSpawn(s, s', child)
    ensures Shrinks(s, s')
  {
  }

  lemma HolderStarts(s: State, s': State, id: JobId)
    requires Inv(s) && HolderStep(s, s') && !Running(s, id) && Running(s', id)
    ensures |RunningIds(s)| < MAX_RUNNING_JOBS && !NameTaken(s, s'.jobs[id].name)
  {
    if child :| LaunchSpawn(s, s', child) {
      SpawnStartsNothing(s, s', child);
    } else if LaunchRecord(s, s') {
      assert s.lock.id == id && LaunchReserved(s, id);
    }
  }

  // A job comes to run only in a step for which there was room.
  lemma RunsOnlyWithRoom(s: State, s': State, id: JobId)
    requires Inv(s) && Next(s, s') && !Running(s, id) && Running(s', id)
    ensures Room(s, s'.jobs[id].name)
  {
    if StopStep(s, s') { StopStartsNothing(s, s'); }
    else if FreeStep(s, s') { FreeStartsNothing(s, s'); }
    else { HolderStarts(s, s', id); }
    RoomIsExact(s, s'.jobs[id].name);
  }

  // ---------- exit records ----------

  ghost predicate Replaced(s: State, s': State, id: JobId) {
    && id in s.jobs && s.jobs[id].exit.Some?
    && id in s'.jobs && s'.jobs[id].exit != s.jobs[id].exit
  }

  lemma HolderNeverReplaces(s: State, s': State, id: JobId)
    requires Inv(s) && HolderStep(s, s')
    ensures !Replaced(s, s', id)
  {
  }

  lemma FreeNeverReplaces(s: State, s': State, id: JobId)
    requires Inv(s) && FreeStep(s, s')
    ensures !Replaced(s, s', id)
  {
  }

  lemma StopReplaces(s: State, s': State, id: JobId)
    requires Inv(s) && StopStep(s, s') && Replaced(s, s', id)
    ensures StopWrite(s, s') && s.lock.id == id && s.jobs[id].kind == Adopted
  {
  }

  // The lock-free writers never replace a record, and neither does anyone for a launched
  // job: a record is replaced exactly when a stop that found none writes over the record
  // that the watcher of an adopted job has published since.
  lemma ReplacedExactly(s: State, s': State, id: JobId)
    requires Inv(s) && Next(s, s')
    ensures Replaced(s, s', id)
            <==> && StopWrite(s, s') && s.lock.id == id && s.jobs[id].kind == Adopted
                 && s.jobs[id].exit.Some? && s.jobs[id].exit != Some(Exit(ByStop, None))
  {
    if Replaced(s, s', id) {
      if HolderStep(s, s') { HolderNeverReplaces(s, s', id); }
      else if FreeStep(s, s') { FreeNeverReplaces(s, s', id); }
      else { StopReplaces(s, s', id); }
    }
  }

  // Until its directory is removed, a launched job keeps the first exit record it gets, in
  // every interleaving of its supervisor with stops.
  lemma LaunchedWriteOnce(run: seq<State>, id: JobId, i: nat, j: nat)
    requires IsRun(run) && i <= j < |run|
    requires id in run[i].jobs && run[i].jobs[id].kind == Launched && run[i].jobs[id].exit.Some?
    ensures id in run[j].jobs ==>
              run[j].jobs[id].kind == Launched && run[j].jobs[id].exit == run[i].jobs[id].exit
  {
    RunSettled(run);
    KeepsRecord(run, id, i, j);
  }

  lemma {:induction false} KeepsRecord(run: seq<State>, id: JobId, i: nat, j: nat)
    requires Settled(run) && i <= j < |run|
    requires id in run[i].jobs && run[i].jobs[id].kind == Launched && run[i].jobs[id].exit.Some?
    ensures id in run[j].everUsed
    ensures id in run[j].jobs ==>
              run[j].jobs[id].kind == Launched && run[j].jobs[id].exit == run[i].jobs[id].exit
    decreases j
  {
    if i < j {
      KeepsRecord(run, id, i, j - 1);
      assert Evolved(run[j - 1], run[j]) && KeepsLaunchedExits(run[j - 1], run[j]);
    }
  }

  // An adopted process dies, a stop finds no record, the watcher publishes one, and the
  // stop replaces it.
  function Story(k: nat): State {
    var p := Identity(7, 100);
    var job := Job(Adopted, "build", Some(p), None);
    var jobs := map[1 := job];
    var watched := map[1 := job.(exit := Some(Exit(ByWatcher, None)))];
    var stopped := map[1 := job.(exit := Some(Exit(ByStop, None)))];
    if k == 0 then State(map[], Free, {p}, {p}, {}, map[], map[])
    else if k == 1 then State(jobs, Adopting(1), {p}, {p}, {1}, map[], map[])
    else if k == 2 then State(jobs, Free, {p}, {p}, {1}, map[], map[1 := p])
    else if k == 3 then State(jobs, Stopping(1, false), {p}, {p}, {1}, map[], map[1 := p])
    else if k == 4 then State(jobs, Stopping(1, false), {}, {p}, {1}, map[], map[1 := p])
    else if k == 5 then State(jobs, ReadingExit(1), {}, {p}, {1}, map[], map[1 := p])
    else if k == 6 then State(jobs, WritingExit(1), {}, {p}, {1}, map[], map[1 := p])
    else if k == 7 then State(watched, WritingExit(1), {}, {p}, {1}, map[], map[])
    else State(stopped, Free, {}, {p}, {1}, map[], map[])
  }

  lemma StoryAdopts()
    ensures Next(Story(0), Story(1)) && Next(Story(1), Story(2))
  {
    var s, s' := Story(0), Story(1);
    assert RunningIds(s) == {};
    assert s'.jobs == s.jobs[1 := Job(Adopted, "build", Some(Identity(7, 100)), None)];
    assert AdoptCheck(s, s', 1, "build", Identity(7, 100));
    assert AdoptWatch(s', Story(2));
  }

  lemma StoryDies()
    ensures Next(Story(2), Story(3)) && Next(Story(3), Story(4))
  {
    assert StopCheck(Story(2), Story(3), 1, false);
    assert Die(Story(3), Story(4), Identity(7, 100));
  }

  lemma StoryReads()
    ensures Next(Story(4), Story(5)) && Next(Story(5), Story(6))
  {
    assert StopDead(Story(4), Story(5));
    assert StopRead(Story(5), Story(6));
  }

  lemma StoryWrites()
    ensures Next(Story(6), Story(7)) && Next(Story(7), Story(8)) && Replaced(Story(7), Story(8), 1)
  {
    assert WatcherExit(Story(6), Story(7), 1);
    assert StopWrite(Story(7), Story(8));
  }

  lemma StoryStep(k: nat)
    requires k < 8
    ensures Next(Story(k), Story(k + 1))
  {
    if k < 2 { StoryAdopts(); }
    else if k < 4 { StoryDies(); }
    else if k < 6 { StoryReads(); }
    else { StoryWrites(); }
  }

  ghost predicate ReplacedAt(run: seq<State>, i: nat, id: JobId) {
    i + 1 < |run| && Replaced(run[i], run[i + 1], id)
  }

  // So the exception is real.
  lemma AdoptedRecordReplaced()
    ensures exists run: seq<State>, i: nat :: IsRun(run) && ReplacedAt(run, i, 1)
  {
    var run := seq(9, k requires 0 <= k < 9 => Story(k));
    assert IsRun(run) by {
      assert Init(Story(0));
      forall i | 0 <= i < 8 ensures Next(run[i], run[i + 1]) { StoryStep(i); }
    }
    StoryWrites();
    assert ReplacedAt(run, 7, 1);
  }
}
