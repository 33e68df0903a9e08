// Publishing a snapshot directory by renames, one filesystem operation per step, with an
// exception or a crash allowed after every one of them.
module SnapshotPublication {
  import opened Wrappers
  import opened SnapshotPaths

  datatype File = Config | Manifest | Blob(index: nat)

  // A snapshot directory carries the number of the save that wrote it, the number of blobs
  // its manifest names, and whether the validator accepts that manifest.
  datatype Node =
    | Directory(generation: nat, blobs: nat, accepted: bool, files: set<File>)
    | Link
    | Other

  type Disk = map<string, Node>

  datatype Pc =
    | WriteBlobs | Inspect
    | NameHold | FreeHold | MoveToHold
    | ClearPrevious | MoveCurrent | NoteMoved
    | Publish | DropPrevious | DropHold | Return
    | Rollback | Discard | RollbackAgain

  datatype Locals = Locals(temporary: string, generation: nat, blobs: nat, accepted: bool,
                           hold: Option<string>, moved: bool)

  datatype Process =
    | Dead
    | Cleaning(recovered: Option<nat>)
    | Idle
    | Saving(pc: Pc, locals: Locals)

  datatype State = State(
    disk: Disk,
    process: Process,
    memory: Option<nat>,   // the generation the last startup restored
    published: nat,        // the newest generation renamed onto the target, 0 for none
    accepted: bool,        // whether the validator accepts that generation's manifest
    returned: nat,         // the newest generation whose save returned
    attempts: nat
  )

  // ---------- what startup loads ----------

  // Everything the save wrote is there.
  ghost predicate Whole(node: Node) {
    && node.Directory?
    && Manifest in node.files
    && forall i: nat :: i < node.blobs ==> Blob(i) in node.files
  }

  // And it validates. A save may write a manifest that the validator refuses as a whole, for
  // its size or for reuse counts beyond the attribution guard.
  ghost predicate Complete(node: Node) {
    Whole(node) && node.accepted
  }

  predicate ConfigOnly(node: Node) {
    node.Directory? && node.files <= {Config}
  }

  // A complete predecessor is loaded only behind an absent or configuration-only target.
  ghost function Recovered(target: string, disk: Disk): Option<nat> {
    var previous := PreviousName(target);
    if previous in disk && Complete(disk[previous])
       && (target !in disk || ConfigOnly(disk[target]))
    then Some(disk[previous].generation)
    else None
  }

  ghost function Current(target: string, disk: Disk): Option<nat> {
    if target in disk && Complete(disk[target]) then Some(disk[target].generation) else None
  }

  ghost function StartupLoads(target: string, disk: Disk): Option<nat> {
    var recovered := Recovered(target, disk);
    if recovered.Some? then recovered else Current(target, disk)
  }

  function Newest(published: nat): Option<nat> {
    if published == 0 then None else Some(published)
  }

  // ---------- filesystem operations ----------

  function Without(disk: Disk, name: string): Disk { disk - {name} }

  function Renamed(disk: Disk, from: string, to: string): Disk
    requires from in disk
  {
    Without(disk, from)[to := disk[from]]
  }

  // One step of a recursive removal: a file of the directory, or the directory itself.
  ghost predicate RemovalStep(disk: Disk, disk': Disk, name: string) {
    && name in disk
    && (|| disk' == Without(disk, name)
        || (&& disk[name].Directory?
            && (exists file :: file in disk[name].files
                  && disk' == disk[name := disk[name].(files := disk[name].files - {file})])))
  }

  // ---------- one save ----------

  ghost predicate Began(target: string, s: State, s': State, temporary: string, blobs: nat, accepted: bool) {
    && IsTemporary(target, temporary) && temporary !in s.disk
    && var generation := s.attempts + 1;
       s' == s.(disk := s.disk[temporary := Directory(generation, blobs, accepted, {})],
                attempts := generation,
                process := Saving(WriteBlobs, Locals(temporary, generation, blobs, accepted, None, false)))
  }

  ghost predicate BeginSave(target: string, s: State, s': State) {
    s.process.Idle? && exists temporary, blobs: nat, accepted :: Began(target, s, s', temporary, blobs, accepted)
  }

  ghost predicate At(s: State, pc: Pc) { s.process.Saving? && s.process.pc == pc }

  function Goto(s: State, disk: Disk, pc: Pc): State
    requires s.process.Saving?
  {
    s.(disk := disk, process := s.process.(pc := pc))
  }

  // The temporary may be deleted behind the saver only by an exception, so it is present.
  ghost predicate WriteStep(s: State, s': State) {
    && At(s, WriteBlobs)
    && var l := s.process.locals;
    && l.temporary in s.disk && s.disk[l.temporary].Directory?
    && var node := s.disk[l.temporary];
       || (exists i: nat ::
             i < l.blobs && Blob(i) !in node.files
             && s' == Goto(s, s.disk[l.temporary := node.(files := node.files + {Blob(i)})], WriteBlobs))
       || (&& (forall i: nat :: i < l.blobs ==> Blob(i) in node.files)
           && s' == Goto(s, s.disk[l.temporary := node.(files := node.files + {Manifest})], Inspect))
  }

  ghost predicate InspectStep(target: string, s: State, s': State) {
    && At(s, Inspect)
    && var previous := PreviousName(target);
       s' == Goto(s, s.disk,
                  if target !in s.disk then Publish
                  else if previous in s.disk && ConfigOnly(s.disk[target]) then NameHold
                  else if previous in s.disk then ClearPrevious
                  else MoveCurrent)
  }

  ghost predicate HoldStep(target: string, s: State, s': State) {
    && s.process.Saving?
    && var l := s.process.locals;
       || (&& At(s, NameHold)
           && (exists hold ::
                 IsHold(target, hold) && hold !in s.disk
                 && s' == s.(disk := s.disk[hold := Directory(0, 0, false, {})],
                             process := Saving(FreeHold, l.(hold := Some(hold))))))
       || (At(s, FreeHold) && l.hold.Some? && s' == Goto(s, Without(s.disk, l.hold.value), MoveToHold))
       || (At(s, MoveToHold) && l.hold.Some? && target in s.disk && l.hold.value !in s.disk
           && s' == Goto(s, Renamed(s.disk, target, l.hold.value), Publish))
  }

  ghost predicate MoveStep(target: string, s: State, s': State) {
    && s.process.Saving?
    && var previous := PreviousName(target);
       || (At(s, ClearPrevious) && previous in s.disk
           && (exists disk ::
                 RemovalStep(s.disk, disk, previous)
                 && s' == Goto(s, disk, if previous in disk then ClearPrevious else MoveCurrent)))
       || (At(s, MoveCurrent) && target in s.disk && previous !in s.disk
           && s' == Goto(s, Renamed(s.disk, target, previous), NoteMoved))
       || (At(s, NoteMoved)
           && s' == s.(process := Saving(Publish, s.process.locals.(moved := true))))
  }

  ghost predicate PublishStep(target: string, s: State, s': State) {
    && At(s, Publish)
    && var l := s.process.locals;
    && l.temporary in s.disk && target !in s.disk
    && s' == Goto(s, Renamed(s.disk, l.temporary, target), DropPrevious)
             .(published := l.generation, accepted := l.accepted)
  }

  // Both removals ignore errors: they may stop early.
  ghost predicate DropStep(target: string, s: State, s': State) {
    && s.process.Saving?
    && var l := s.process.locals;
       || (At(s, DropPrevious)
           && (|| s' == Goto(s, s.disk, DropHold)
               || (exists disk ::
                     RemovalStep(s.disk, disk, PreviousName(target))
                     && s' == Goto(s, disk, DropPrevious))))
       || (At(s, DropHold)
           && (|| s' == Goto(s, s.disk, Return)
               || (l.hold.Some?
                   && exists disk ::
                        RemovalStep(s.disk, disk, l.hold.value) && s' == Goto(s, disk, DropHold))))
  }

  ghost predicate ReturnStep(s: State, s': State) {
    && At(s, Return)
    && s' == s.(process := Idle, returned := s.process.locals.generation)
  }

  // ---------- exceptions ----------

  predicate Handling(pc: Pc) { pc in {Rollback, Discard, RollbackAgain} }

  // Any operation may raise, before or after its effect. Only the publishing rename and the
  // sync after it have the inner handler; the outer handler discards the temporary first.
  ghost predicate Raise(s: State, s': State) {
    && s.process.Saving? && !Handling(s.process.pc)
    && (|| s' == Goto(s, s.disk, Discard)
        || (s.process.pc in {Publish, DropPrevious} && s' == Goto(s, s.disk, Rollback)))
  }

  function RolledBack(target: string, disk: Disk, l: Locals): Disk {
    var previous := PreviousName(target);
    if l.hold.Some? && l.hold.value in disk && target !in disk then Renamed(disk, l.hold.value, target)
    else if l.moved && previous in disk && target !in disk then Renamed(disk, previous, target)
    else disk
  }

  // A handler's own operations may raise as well, which leaves the disk as it was.
  ghost predicate HandlerStep(target: string, s: State, s': State) {
    && s.process.Saving?
    && var l := s.process.locals;
       || (At(s, Rollback)
           && (s' == Goto(s, RolledBack(target, s.disk, l), Discard) || s' == Goto(s, s.disk, Discard)))
       || (At(s, Discard)
           && (|| s' == Goto(s, s.disk, RollbackAgain)
               || exists disk :: RemovalStep(s.disk, disk, l.temporary) && s' == Goto(s, disk, Discard)))
       || (At(s, RollbackAgain)
           && (|| s' == s.(disk := RolledBack(target, s.disk, l), process := Idle)
               || s' == s.(process := Idle)))
  }

  // ---------- crashes, the host and startup ----------

  ghost predicate Crash(s: State, s': State) { s' == s.(process := Dead) }

  // Between kernels the host may put its configuration into the target directory.
  ghost predicate WriteConfig(target: string, s: State, s': State) {
    && s.process.Dead?
    && var node := if target in s.disk then s.disk[target] else Directory(0, 0, false, {});
    && node.Directory?
    && s' == s.(disk := s.disk[target := node.(files := node.files + {Config})])
  }

  ghost predicate Recover(target: string, s: State, s': State) {
    && s.process.Dead?
    && s' == s.(process := Cleaning(Recovered(target, s.disk)))
  }

  // Stale directories are emptied and removed, stale links unlinked, other files kept.
  ghost predicate CleanStep(target: string, s: State, s': State) {
    && s.process.Cleaning?
    && exists name, disk ::
         && name in s.disk && Stale(target, name) && !s.disk[name].Other?
         && RemovalStep(s.disk, disk, name)
         && s' == s.(disk := disk)
  }

  ghost predicate Restore(target: string, s: State, s': State) {
    && s.process.Cleaning?
    && s' == s.(process := Idle,
                memory := if s.process.recovered.Some? then s.process.recovered
                          else Current(target, s.disk))
  }

  // The steps of a save, its exception handler included.
  ghost predicate SavingStep(target: string, s: State, s': State) {
    || WriteStep(s, s') || InspectStep(target, s, s') || HoldStep(target, s, s') || MoveStep(target, s, s')
    || PublishStep(target, s, s') || DropStep(target, s, s') || ReturnStep(s, s') || HandlerStep(target, s, s')
  }

  ghost predicate OutsideStep(target: string, s: State, s': State) {
    || BeginSave(target, s, s') || Raise(s, s') || Crash(s, s') || WriteConfig(target, s, s')
    || Recover(target, s, s') || CleanStep(target, s, s') || Restore(target, s, s')
  }

  ghost predicate Next(target: string, s: State, s': State) {
    SavingStep(target, s, s') || OutsideStep(target, s, s')
  }

  // Before the first save there is no snapshot; unrelated siblings are arbitrary.
  ghost predicate Init(target: string, s: State) {
    && s.process.Dead? && s.memory == None
    && s.published == s.returned == s.attempts == 0
    && PreviousName(target) !in s.disk
    && (target in s.disk ==> ConfigOnly(s.disk[target]))
  }

  ghost predicate IsRun(target: string, run: seq<State>) {
    && |run| > 0 && Init(target, run[0])
    && forall i :: 0 <= i < |run| - 1 ==> Next(target, run[i], run[i + 1])
  }

  // ---------- the invariant ----------

  ghost predicate CurrentHolds(target: string, s: State) {
    target in s.disk && Whole(s.disk[target])
    && s.disk[target].generation == s.published && s.disk[target].accepted == s.accepted
  }

  ghost predicate PreviousHolds(target: string, s: State) {
    var previous := PreviousName(target);
    && (target in s.disk ==> ConfigOnly(s.disk[target]))
    && previous in s.disk && Whole(s.disk[previous])
    && s.disk[previous].generation == s.published && s.disk[previous].accepted == s.accepted
  }

  ghost predicate Unpublished(target: string, s: State) {
    var previous := PreviousName(target);
    && s.published == 0
    && (target in s.disk ==> ConfigOnly(s.disk[target]))
    && (previous in s.disk ==> ConfigOnly(s.disk[previous]))
  }

  ghost predicate Stored(target: string, s: State) {
    || Unpublished(target, s)
    || (s.published > 0 && (CurrentHolds(target, s) || PreviousHolds(target, s)))
  }

  // Program points at which the new directory is still the temporary.
  predicate Unreleased(pc: Pc) {
    pc !in {DropPrevious, DropHold, Return} && !Handling(pc)
  }

  ghost predicate SavingInv(target: string, s: State)
    requires s.process.Saving?
  {
    var l, pc := s.process.locals, s.process.pc;
    && IsTemporary(target, l.temporary)
    && (l.hold.Some? ==> IsHold(target, l.hold.value))
    && 0 < l.generation <= s.attempts
    && (pc in {WriteBlobs, Inspect, NameHold, ClearPrevious, MoveCurrent, NoteMoved} ==> l.hold.None?)
    // The hold, once the target is gone, is the configuration directory it was.
    && (l.hold.Some? && l.hold.value in s.disk && target !in s.disk ==> ConfigOnly(s.disk[l.hold.value]))
    && (Unreleased(pc) ==>
          s.published < l.generation)
    && (Unreleased(pc) && l.temporary in s.disk ==>
          var node := s.disk[l.temporary];
          && node.Directory? && node.generation == l.generation && node.blobs == l.blobs
          && node.accepted == l.accepted && (pc != WriteBlobs ==> Whole(node)))
    && (pc in {NameHold, FreeHold, MoveToHold} ==> target in s.disk && ConfigOnly(s.disk[target]))
    && (pc in {ClearPrevious, MoveCurrent} ==> target in s.disk && (Unpublished(target, s) || CurrentHolds(target, s)))
    && (pc in {DropPrevious, DropHold, Return} ==>
          s.published == l.generation && s.accepted == l.accepted && CurrentHolds(target, s))
  }

  ghost predicate Inv(target: string, s: State) {
    && Stored(target, s)
    && s.returned <= s.published <= s.attempts
    && (s.process.Cleaning? ==> s.process.recovered == Recovered(target, s.disk))
    && (s.process.Saving? ==> SavingInv(target, s))
  }

  lemma StoredIsLoaded(target: string, s: State)
    requires Stored(target, s)
    ensures StartupLoads(target, s.disk) == if s.accepted then Newest(s.published) else None
  {
  }

  // ---------- every step keeps it ----------

  lemma RemovalKeeps(disk: Disk, disk': Disk, name: string)
    requires RemovalStep(disk, disk', name)
    ensures forall other :: other != name ==> (other in disk' <==> other in disk)
    ensures forall other :: other != name && other in disk ==> disk'[other] == disk[other]
    ensures name in disk' ==>
              disk[name].Directory? && disk'[name].Directory? && disk'[name].files <= disk[name].files
  {
  }

  lemma SaveStepKeeps(target: string, s: State, s': State)
    requires Inv(target, s) && s.process.Saving?
    requires WriteStep(s, s') || InspectStep(target, s, s') || ReturnStep(s, s') || PublishStep(target, s, s')
    ensures Inv(target, s')
  {
    NamesApart(target, s.process.locals.temporary);
    if s.process.locals.hold.Some? { NamesApart(target, s.process.locals.hold.value); }
  }

  lemma HoldStepKeeps(target: string, s: State, s': State)
    requires Inv(target, s) && HoldStep(target, s, s')
    ensures Inv(target, s')
  {
    var l' := s'.process.locals;
    NamesApart(target, l'.temporary);
    NamesApart(target, l'.hold.value);
  }

  lemma MoveStepKeeps(target: string, s: State, s': State)
    requires Inv(target, s) && MoveStep(target, s, s')
    ensures Inv(target, s')
  {
    var l := s.process.locals;
    NamesApart(target, l.temporary);
    if At(s, ClearPrevious) {
      RemovalKeeps(s.disk, s'.disk, PreviousName(target));
    }
  }

  lemma DropStepKeeps(target: string, s: State, s': State)
    requires Inv(target, s) && DropStep(target, s, s')
    ensures Inv(target, s')
  {
    var l := s.process.locals;
    NamesApart(target, l.temporary);
    if l.hold.Some? { NamesApart(target, l.hold.value); }
    if At(s, DropPrevious) && s'.process.pc == DropPrevious {
      RemovalKeeps(s.disk, s'.disk, PreviousName(target));
    } else if At(s, DropHold) && s'.process.pc == DropHold {
      RemovalKeeps(s.disk, s'.disk, l.hold.value);
    }
  }

  lemma RollbackKeeps(target: string, s: State)
    requires Inv(target, s) && s.process.Saving? && Handling(s.process.pc)
    ensures Stored(target, s.(disk := RolledBack(target, s.disk, s.process.locals)))
    ensures target in s.disk ==> RolledBack(target, s.disk, s.process.locals) == s.disk
  {
    if s.process.locals.hold.Some? { NamesApart(target, s.process.locals.hold.value); }
  }

  // A completed rollback puts the directory that was moved aside back at the target, if there
  // is none there, and changes nothing else: the held configuration, or the old snapshot.
  lemma RollbackRestores(target: string, s: State)
    requires Inv(target, s) && s.process.Saving? && Handling(s.process.pc)
    ensures var l, previous := s.process.locals, PreviousName(target);
            var disk := RolledBack(target, s.disk, l);
            && (target in s.disk ==> disk == s.disk)
            && (target !in s.disk && l.hold.Some? && l.hold.value in s.disk ==>
                  && target in disk && disk[target] == s.disk[l.hold.value] && l.hold.value !in disk)
            && (target !in s.disk && l.hold.None? && l.moved && previous in s.disk ==>
                  && target in disk && disk[target] == s.disk[previous] && previous !in disk
                  && (s.published > 0 ==> CurrentHolds(target, s.(disk := disk))))
            && (target in disk <==> || target in s.disk || (l.hold.Some? && l.hold.value in s.disk)
                                    || (l.moved && previous in s.disk))
            && (forall name :: name in s.disk && name != previous && l.hold != Some(name) && name != target ==>
                  name in disk && disk[name] == s.disk[name])
  {
    var l := s.process.locals;
    NamesApart(target, l.temporary);
    if l.hold.Some? { NamesApart(target, l.hold.value); }
  }

  lemma RollbackStepKeeps(target: string, s: State, s': State)
    requires Inv(target, s) && HandlerStep(target, s, s') && !At(s, Discard)
    ensures Inv(target, s')
  {
    var l := s.process.locals;
    NamesApart(target, l.temporary);
    if l.hold.Some? { NamesApart(target, l.hold.value); }
    RollbackKeeps(target, s);
  }

  lemma DiscardStepKeeps(target: string, s: State, s': State)
    requires Inv(target, s) && HandlerStep(target, s, s') && At(s, Discard)
    ensures Inv(target, s')
  {
    var l := s.process.locals;
    NamesApart(target, l.temporary);
    if l.hold.Some? { NamesApart(target, l.hold.value); }
    if s'.process.pc == Discard {
      RemovalKeeps(s.disk, s'.disk, l.temporary);
    }
  }

  lemma BeginSaveKeeps(target: string, s: State, s': State)
    requires Inv(target, s) && BeginSave(target, s, s')
    ensures Inv(target, s')
  {
    NamesApart(target, s'.process.locals.temporary);
  }

  lemma CleanStepKeeps(target: string, s: State, s': State)
    requires Inv(target, s) && CleanStep(target, s, s')
    ensures Inv(target, s')
  {
    var name, disk :| name in s.disk && Stale(target, name) && RemovalStep(s.disk, disk, name)
                      && s' == s.(disk := disk);
    StaleNames(target, name);
    RemovalKeeps(s.disk, disk, name);
  }

  lemma OutsideStepKeeps(target: string, s: State, s': State)
    requires Inv(target, s) && OutsideStep(target, s, s')
    ensures Inv(target, s')
  {
    if BeginSave(target, s, s') { BeginSaveKeeps(target, s, s'); }
    else if CleanStep(target, s, s') { CleanStepKeeps(target, s, s'); }
  }

  lemma SavingStepKeeps(target: string, s: State, s': State)
    requires Inv(target, s) && SavingStep(target, s, s')
    ensures Inv(target, s')
  {
    if HoldStep(target, s, s') { HoldStepKeeps(target, s, s'); }
    else if MoveStep(target, s, s') { MoveStepKeeps(target, s, s'); }
    else if DropStep(target, s, s') { DropStepKeeps(target, s, s'); }
    else if HandlerStep(target, s, s') {
      if At(s, Discard) { DiscardStepKeeps(target, s, s'); } else { RollbackStepKeeps(target, s, s'); }
    }
    else { SaveStepKeeps(target, s, s'); }
  }

  lemma SavingStepGrows(target: string, s: State, s': State)
    requires Inv(target, s) && SavingStep(target, s, s')
    ensures s.published <= s'.published && s.returned <= s'.returned
  {
  }

  lemma StepKeeps(target: string, s: State, s': State)
    requires Inv(target, s) && Next(target, s, s')
    ensures Inv(target, s')
    ensures s.published <= s'.published && s.returned <= s'.returned
  {
    if SavingStep(target, s, s') {
      SavingStepKeeps(target, s, s');
      SavingStepGrows(target, s, s');
    } else {
      OutsideStepKeeps(target, s, s');
    }
  }

  lemma {:induction false} RunKeeps(target: string, run: seq<State>, n: nat)
    requires IsRun(target, run) && n < |run|
    ensures Inv(target, run[n])
    ensures forall i :: 0 <= i <= n ==> run[i].published <= run[n].published && run[i].returned <= run[n].returned
  {
    if n > 0 {
      RunKeeps(target, run, n - 1);
      StepKeeps(target, run[n - 1], run[n]);
    }
  }

  // Whatever the sequence of saves, exceptions, crashes and restarts, a startup at any
  // moment would load the newest generation ever renamed into place, if and only if its
  // manifest is one the validator accepts, and nothing at all otherwise. It never falls back
  // to an older generation, and that newest one is never older than any save that returned.
  lemma StartupNeverGoesBack(target: string, run: seq<State>, i: nat, j: nat)
    requires IsRun(target, run) && i <= j < |run|
    ensures StartupLoads(target, run[j].disk) == Newest(run[j].published)
            <==> run[j].published == 0 || NewestAccepted(target, run[j])
    ensures run[j].published > 0 && !NewestAccepted(target, run[j]) ==> StartupLoads(target, run[j].disk) == None
    ensures run[i].returned <= run[j].returned <= run[j].published
    ensures run[i].published <= run[j].published
  {
    RunKeeps(target, run, j);
    StoredIsLoaded(target, run[j]);
    if run[j].published > 0 { NewestIsStored(target, run[j]); }
  }

  // The directory of the newest published generation, which is the target's while that has
  // one, has an accepted manifest.
  ghost predicate NewestAccepted(target: string, s: State) {
    var previous := PreviousName(target);
    if HoldsNewest(s, target) then s.disk[target].accepted
    else HoldsNewest(s, previous) && s.disk[previous].accepted
  }

  ghost predicate HoldsNewest(s: State, name: string) {
    name in s.disk && Whole(s.disk[name]) && s.disk[name].generation == s.published
  }

  // In any state of a run there is such a directory, in one of the two places.
  lemma NewestIsStored(target: string, s: State)
    requires Inv(target, s) && s.published > 0
    ensures HoldsNewest(s, target) || HoldsNewest(s, PreviousName(target))
    ensures NewestAccepted(target, s) <==> s.accepted
  {
  }

  // The startup procedure itself, with its cleanup between the decision and the restore,
  // puts exactly that generation into memory, or nothing.
  lemma StartupRestoresNewest(target: string, run: seq<State>, i: nat)
    requires IsRun(target, run) && i + 1 < |run| && Restore(target, run[i], run[i + 1])
    ensures run[i + 1].memory
            == if run[i].published > 0 && NewestAccepted(target, run[i]) then Some(run[i].published) else None
  {
    RunKeeps(target, run, i);
    StoredIsLoaded(target, run[i]);
    if run[i].published > 0 { NewestIsStored(target, run[i]); }
  }

  // ---------- two saves in a row ----------

  function Blobs(n: nat): set<File> { set i: nat | i < n :: Blob(i) }

  // The directory a save of the given generation leaves.
  function Written(generation: nat, blobs: nat, accepted: bool): Node {
    Directory(generation, blobs, accepted, Blobs(blobs) + {Manifest})
  }

  ghost predicate EndsIn(target: string, run: seq<State>, s: State) {
    IsRun(target, run) && run[|run| - 1] == s
  }

  lemma Longer(target: string, run: seq<State>, s: State, s': State)
    requires EndsIn(target, run, s) && Next(target, s, s')
    ensures EndsIn(target, run + [s'], s')
  {
    var run' := run + [s'];
    forall i | 0 <= i < |run'| - 1 ensures Next(target, run'[i], run'[i + 1]) {
      if i < |run| - 1 { assert Next(target, run[i], run[i + 1]); }
    }
  }

  // Writing the blobs from the i-th on, one after the other.
  lemma WriteAll(target: string, run: seq<State>, s: State, node: Node, i: nat) returns (run': seq<State>)
    requires EndsIn(target, run, s) && At(s, WriteBlobs) && i <= s.process.locals.blobs
    requires s.process.locals.temporary in s.disk && node == s.disk[s.process.locals.temporary]
    requires node.Directory? && node.files == Blobs(i)
    ensures run <= run'
    ensures var l := s.process.locals;
            EndsIn(target, run', s.(disk := s.disk[l.temporary := node.(files := Blobs(l.blobs))]))
    decreases s.process.locals.blobs - i
  {
    var l := s.process.locals;
    if i == l.blobs {
      assert s.disk[l.temporary := node.(files := Blobs(l.blobs))] == s.disk;
      run' := run;
    } else {
      var node' := node.(files := node.files + {Blob(i)});
      var s' := Goto(s, s.disk[l.temporary := node'], WriteBlobs);
      assert Blobs(i + 1) == Blobs(i) + {Blob(i)};
      assert WriteStep(s, s');
      Longer(target, run, s, s');
      run' := WriteAll(target, run + [s'], s', node', i + 1);
      assert s'.disk[l.temporary := node'.(files := Blobs(l.blobs))]
             == s.disk[l.temporary := node.(files := Blobs(l.blobs))];
    }
  }

  // A save up to its look at the target.
  lemma BeginAndWrite(target: string, run: seq<State>, s: State, temporary: string, blobs: nat, accepted: bool)
    returns (run': seq<State>)
    requires EndsIn(target, run, s) && s.process.Idle? && IsTemporary(target, temporary) && temporary !in s.disk
    ensures run <= run'
    ensures var g := s.attempts + 1;
            EndsIn(target, run', s.(disk := s.disk[temporary := Written(g, blobs, accepted)], attempts := g,
                                    process := Saving(Inspect, Locals(temporary, g, blobs, accepted, None, false))))
  {
    var g := s.attempts + 1;
    var l := Locals(temporary, g, blobs, accepted, None, false);
    var empty := Directory(g, blobs, accepted, {});
    var s1 := s.(disk := s.disk[temporary := empty], attempts := g, process := Saving(WriteBlobs, l));
    assert Began(target, s, s1, temporary, blobs, accepted);
    assert BeginSave(target, s, s1);
    Longer(target, run, s, s1);
    assert Blobs(0) == {};
    run' := WriteAll(target, run + [s1], s1, empty, 0);
    var full := empty.(files := Blobs(blobs));
    var s2 := s1.(disk := s1.disk[temporary := full]);
    var s3 := Goto(s2, s2.disk[temporary := full.(files := full.files + {Manifest})], Inspect);
    assert WriteStep(s2, s3);
    Longer(target, run', s2, s3);
    run' := run' + [s3];
    assert s3.disk == s.disk[temporary := Written(g, blobs, accepted)];
  }

  // The end of a save, from the publishing rename on, with what was moved aside removed.
  lemma PublishAndReturn(target: string, run: seq<State>, s: State) returns (run': seq<State>)
    requires EndsIn(target, run, s) && At(s, Publish) && IsTemporary(target, s.process.locals.temporary)
    requires s.process.locals.temporary in s.disk && target !in s.disk
    ensures run <= run'
    ensures var l := s.process.locals;
            EndsIn(target, run', s.(disk := Without(Renamed(s.disk, l.temporary, target), PreviousName(target)),
                                    process := Idle, published := l.generation, accepted := l.accepted,
                                    returned := l.generation))
  {
    var l, previous := s.process.locals, PreviousName(target);
    NamesApart(target, l.temporary);
    var s1 := Goto(s, Renamed(s.disk, l.temporary, target), DropPrevious).(published := l.generation,
                                                                            accepted := l.accepted);
    assert PublishStep(target, s, s1);
    Longer(target, run, s, s1);
    run' := run + [s1];
    var s2 := Goto(s1, Without(s1.disk, previous), DropPrevious);
    if previous in s1.disk {
      assert RemovalStep(s1.disk, s2.disk, previous);
      assert DropStep(target, s1, s2);
      Longer(target, run', s1, s2);
      run' := run' + [s2];
    } else {
      assert s2 == s1;
    }
    var s3, s4 := Goto(s2, s2.disk, DropHold), Goto(s2, s2.disk, Return);
    assert DropStep(target, s2, s3);
    Longer(target, run', s2, s3);
    assert DropStep(target, s3, s4);
    Longer(target, run' + [s3], s3, s4);
    var s5 := s4.(process := Idle, returned := l.generation);
    assert ReturnStep(s4, s5);
    Longer(target, run' + [s3] + [s4], s4, s5);
    run' := run' + [s3] + [s4] + [s5];
  }

  // A kernel that has started, or has saved once.
  function Rested(target: string, g: nat, blobs: nat, accepted: bool): State {
    if g == 0 then State(map[], Idle, None, 0, accepted, 0, 0)
    else State(map[target := Written(g, blobs, accepted)], Idle, None, g, accepted, g, g)
  }

  lemma Started(target: string) returns (run: seq<State>)
    ensures EndsIn(target, run, Rested(target, 0, 0, true))
  {
    var s0 := State(map[], Dead, None, 0, true, 0, 0);
    var s1 := s0.(process := Cleaning(None));
    var s2 := Rested(target, 0, 0, true);
    assert Init(target, s0);
    assert EndsIn(target, [s0], s0);
    assert Recover(target, s0, s1);
    Longer(target, [s0], s0, s1);
    assert Restore(target, s1, s2);
    Longer(target, [s0] + [s1], s1, s2);
    run := [s0] + [s1] + [s2];
  }

  lemma FirstSave(target: string, run: seq<State>, temporary: string, blobs: nat, accepted: bool)
    returns (run': seq<State>)
    requires EndsIn(target, run, Rested(target, 0, 0, true)) && IsTemporary(target, temporary)
    ensures run <= run' && EndsIn(target, run', Rested(target, 1, blobs, accepted))
  {
    var s := Rested(target, 0, 0, true);
    NamesApart(target, temporary);
    run' := BeginAndWrite(target, run, s, temporary, blobs, accepted);
    var s1 := run'[|run'| - 1];
    var s2 := Goto(s1, s1.disk, Publish);
    assert InspectStep(target, s1, s2);
    Longer(target, run', s1, s2);
    run' := PublishAndReturn(target, run' + [s2], s2);
    assert Without(Renamed(s2.disk, temporary, target), PreviousName(target))
           == map[target := Written(1, blobs, accepted)];
  }

  lemma SecondSave(target: string, run: seq<State>, temporary: string, blobs: nat, accepted: bool, blobs': nat,
                   accepted': bool) returns (run': seq<State>)
    requires EndsIn(target, run, Rested(target, 1, blobs, accepted)) && IsTemporary(target, temporary)
    ensures run <= run' && EndsIn(target, run', Rested(target, 2, blobs', accepted'))
  {
    var s, previous := Rested(target, 1, blobs, accepted), PreviousName(target);
    NamesApart(target, temporary);
    run' := BeginAndWrite(target, run, s, temporary, blobs', accepted');
    var s1 := run'[|run'| - 1];
    assert !ConfigOnly(s1.disk[target]) by { assert Manifest in s1.disk[target].files; }
    var s2 := Goto(s1, s1.disk, MoveCurrent);
    assert InspectStep(target, s1, s2);
    Longer(target, run', s1, s2);
    var s3 := Goto(s2, Renamed(s2.disk, target, previous), NoteMoved);
    assert MoveStep(target, s2, s3);
    Longer(target, run' + [s2], s2, s3);
    var s4 := s3.(process := Saving(Publish, s3.process.locals.(moved := true)));
    assert MoveStep(target, s3, s4);
    Longer(target, run' + [s2] + [s3], s3, s4);
    run' := PublishAndReturn(target, run' + [s2] + [s3] + [s4], s4);
    assert Without(Renamed(s4.disk, temporary, target), previous) == map[target := Written(2, blobs', accepted')];
  }

  // After i states a first save of so many blobs has returned, and at the end a second one;
  // nothing else is on the disk.
  ghost predicate TwoSaves(target: string, run: seq<State>, i: nat, blobs: nat, accepted: bool,
                           blobs': nat, accepted': bool) {
    && IsRun(target, run) && i < |run| - 1
    && run[i] == Rested(target, 1, blobs, accepted)
    && run[|run| - 1] == Rested(target, 2, blobs', accepted')
  }

  lemma TwoSavesReturn(target: string, blobs: nat, accepted: bool, blobs': nat, accepted': bool)
    ensures exists run: seq<State>, i: nat :: TwoSaves(target, run, i, blobs, accepted, blobs', accepted')
  {
    var temporary := TemporaryPrefix(target) + "abcdefgh";
    assert RandomSuffix("abcdefgh") && IsTemporary(target, temporary);
    var run := Started(target);
    var run1 := FirstSave(target, run, temporary, blobs, accepted);
    var run2 := SecondSave(target, run1, temporary, blobs, accepted, blobs', accepted');
    assert run2[|run1| - 1] == run1[|run1| - 1];
    assert |run1| != |run2|;
    assert TwoSaves(target, run2, |run1| - 1, blobs, accepted, blobs', accepted');
  }

  // What startup would load then depends on the verdict alone.
  lemma RestedLoads(target: string, g: nat, blobs: nat, accepted: bool)
    requires g > 0
    ensures StartupLoads(target, Rested(target, g, blobs, accepted).disk) == if accepted then Some(g) else None
  {
    assert Whole(Written(g, blobs, accepted));
  }
}
