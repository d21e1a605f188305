/** The agent's self-update and self-rollback commands, as a machine of interleaved steps.

    Any number of requests are being handled at once, each at its own point, and the restart
    and rollback closures run later from timers. A step is one call that other tasks can
    observe: taking or releasing the mutex, or one file operation on the binary, its backup
    or its staging copy. Which system calls succeed is part of the event. */
module SelfUpdate {
  import opened Options
  import opened Text

  /** A binary: its contents, their SHA-256 digest in hexadecimal, and the version it reports when it is
      run. */
  datatype Binary = Binary(bytes: string, digest: string, version: string)

  /** The executable, the backup and the staging copy next to it. */
  datatype Disk = Disk(exe: Binary, backup: Option<Binary>, staging: Option<Binary>)

  /** The package of an update command, and the checksum and the version it is meant to have. */
  datatype Request = Request(package: Binary, checksum: string, target: string)

  /** A checksum is given, and is that of the package, whatever case its letters have. */
  predicate ChecksumMatches(req: Request) {
    Trim(req.checksum) != "" && Lower(req.package.digest) == Lower(Trim(req.checksum))
  }

  datatype Task =
    | UpdateArrived(req: Request)
    | UpdateLocked(req: Request)
    | Checked(req: Request)          // the checksum matched
    | Staged(req: Request)           // the package was copied next to the executable
    | Probed(req: Request)           // the copy ran and reported the target version
    | BackedUp(req: Request)         // the executable was copied to the backup
    | Swapped(req: Request)          // the copy was renamed over the executable
    | RestartPending(req: Request)   // the handler has answered; the timer runs
    | RestartFailed(req: Request)    // exec returned
    | RestoreCopied(req: Request)    // the backup was copied next to the executable
    | RollbackArrived
    | RollbackChecked                // there is a backup
    | RollbackLocked
    | RollbackPending                // the handler has answered; the timer runs
    | RollbackCopied                 // the backup was copied next to the executable
    | RollbackRestored               // and renamed over it
    | Unlocking                      // about to release the mutex
    | Done

  /** The agent's process and the files it works on. An unlock of a free mutex would bring the
      process down. In sync means that nothing has failed since the last exec that may leave
      another binary on disk than the one that runs. */
  datatype State = State(locked: bool, crashed: bool, tasks: map<nat, Task>, disk: Disk, running: Binary, inSync: bool)

  /** A request arrives, or a task makes its next step. With ok the step's system call
      succeeds; a copy that fails leaves something or nothing in its place. */
  datatype Event =
    | UpdateRequest(id: nat, req: Request)
    | RollbackRequest(id: nat)
    | Advance(id: nat, ok: bool, debris: Option<Binary>)

  predicate HasBackup(d: Disk) {
    d.backup.Some? && d.backup.value.bytes != ""
  }

  function At(s: State, id: nat, t: Task): State {
    s.(tasks := s.tasks[id := t])
  }

  function TryLock(s: State, id: nat, granted: Task): State {
    if s.locked then At(s, id, Done) else At(s, id, granted).(locked := true)
  }

  function Unlock(s: State, id: nat): State {
    At(s, id, Done).(locked := false, crashed := s.crashed || !s.locked)
  }

  /** A successful exec replaces the process: its tasks and its mutex are gone. */
  function Exec(s: State): State {
    State(false, s.crashed, map[], s.disk, s.disk.exe, true)
  }

  function Abandon(s: State, id: nat, staging: Option<Binary>): State {
    At(s, id, Unlocking).(disk := s.disk.(staging := staging))
  }

  /** The first half of RestoreFile: the backup, if it is usable, is copied to the staging copy. */
  function CopyBackup(s: State, id: nat, ok: bool, debris: Option<Binary>, next: Task): State {
    if !HasBackup(s.disk) then At(s, id, Unlocking)
    else if !ok then Abandon(s, id, debris)
    else At(s, id, next).(disk := s.disk.(staging := s.disk.backup))
  }

  /** A rename of the staging copy over the executable. */
  function Swap(s: State, id: nat, ok: bool, next: Task): State {
    if !ok || s.disk.staging.None? then Abandon(s, id, None)
    else At(s, id, next).(disk := Disk(s.disk.staging.value, s.disk.backup, None))
  }

  function NextStep(s: State, id: nat, ok: bool, debris: Option<Binary>): State
    requires id in s.tasks
  {
    match s.tasks[id]
    case UpdateArrived(req) => TryLock(s, id, UpdateLocked(req))
    case UpdateLocked(req) =>
      if req.target != "" && req.target == s.running.version then At(s, id, Unlocking)
      else if req.target == "" || !ok || !ChecksumMatches(req) then At(s, id, Unlocking)
      else At(s, id, Checked(req))
    case Checked(req) =>
      if !ok then Abandon(s, id, debris)
      else At(s, id, Staged(req)).(disk := s.disk.(staging := Some(req.package)))
    case Staged(req) =>
      if ok && s.disk.staging.Some? && s.disk.staging.value.version == req.target then At(s, id, Probed(req))
      else Abandon(s, id, None)
    case Probed(req) =>
      if !ok then Abandon(s, id, None)
      else At(s, id, BackedUp(req)).(disk := s.disk.(backup := Some(s.disk.exe)))
    case BackedUp(req) => Swap(s, id, ok, Swapped(req))
    case Swapped(req) => At(s, id, RestartPending(req))
    case RestartPending(req) => if ok then Exec(s) else At(s, id, RestartFailed(req))
    case RestartFailed(req) =>
      var s' := CopyBackup(s, id, ok, debris, RestoreCopied(req));
      if s'.tasks[id].Unlocking? then s'.(inSync := false) else s'
    case RestoreCopied(req) =>
      if ok then Swap(s, id, ok, Unlocking) else Swap(s, id, ok, Unlocking).(inSync := false)
    case RollbackArrived => if HasBackup(s.disk) then At(s, id, RollbackChecked) else At(s, id, Done)
    case RollbackChecked => TryLock(s, id, RollbackLocked)
    case RollbackLocked => At(s, id, RollbackPending)
    case RollbackPending => CopyBackup(s, id, ok, debris, RollbackCopied)
    case RollbackCopied => Swap(s, id, ok, RollbackRestored)
    case RollbackRestored => if ok then Exec(s) else At(s, id, Unlocking).(inSync := false)
    case Unlocking => Unlock(s, id)
    case Done => s
  }

  function Next(s: State, e: Event): State {
    match e
    case UpdateRequest(id, req) => if id in s.tasks then s else At(s, id, UpdateArrived(req))
    case RollbackRequest(id) => if id in s.tasks then s else At(s, id, RollbackArrived)
    case Advance(id, ok, debris) => if id in s.tasks then NextStep(s, id, ok, debris) else s
  }

  function After(s: State, events: seq<Event>): State {
    if events == [] then s else Next(After(s, events[..|events| - 1]), events[|events| - 1])
  }

  ghost predicate Initial(s: State) {
    !s.locked && !s.crashed && s.tasks == map[] && s.disk.exe == s.running && s.inSync
  }

  // ----- Safety -----

  /** The tasks in a critical section, or with a timer that ends one. */
  predicate Owns(t: Task) {
    !t.UpdateArrived? && !t.RollbackArrived? && !t.RollbackChecked? && !t.Done?
  }

  ghost predicate MutexHeldByOne(s: State) {
    && (s.locked <==> exists i :: i in s.tasks && Owns(s.tasks[i]))
    && (forall i, j :: i in s.tasks && j in s.tasks && Owns(s.tasks[i]) && Owns(s.tasks[j]) ==> i == j)
  }

  /** What an owner may rely on at each point. */
  predicate DiskFits(s: State, t: Task) {
    if t.Swapped? || t.RestartPending? || t.RestartFailed? then
      && s.disk.exe == t.req.package && ChecksumMatches(t.req) && t.req.package.version == t.req.target
      && (s.inSync ==> s.disk.backup == Some(s.running))
    else if t.RestoreCopied? then
      s.disk.staging == s.disk.backup && s.disk.staging.Some? && (s.inSync ==> s.disk.backup == Some(s.running))
    else if t.RollbackRestored? then
      s.disk.backup == Some(s.disk.exe)
    else
      && (s.inSync ==> s.disk.exe == s.running)
      && (t.Checked? ==> ChecksumMatches(t.req))
      && (t.Staged? || t.Probed? || t.BackedUp? ==>
            ChecksumMatches(t.req) && s.disk.staging == Some(t.req.package))
      && (t.Probed? || t.BackedUp? ==> t.req.package.version == t.req.target)
      && (t.BackedUp? ==> s.disk.backup == Some(s.disk.exe))
      && (t.RollbackCopied? ==> s.disk.staging == s.disk.backup && s.disk.staging.Some?)
  }

  ghost predicate Safe(s: State) {
    && !s.crashed
    && MutexHeldByOne(s)
    && (forall i :: i in s.tasks && Owns(s.tasks[i]) ==> DiskFits(s, s.tasks[i]))
    && (!s.locked && s.inSync ==> s.disk.exe == s.running)
  }

  /** Moving one task, with the mutex as that task leaves it and no other task concerned. */
  lemma TaskMoves(s: State, s': State, id: nat, t: Task)
    requires Safe(s) && id in s.tasks && s'.tasks == s.tasks[id := t]
    requires s'.crashed == s.crashed
    requires s'.locked == if Owns(s.tasks[id]) then Owns(t) else s.locked || Owns(t)
    requires !Owns(s.tasks[id]) && Owns(t) ==> !s.locked
    requires !Owns(s.tasks[id]) ==> s'.disk == s.disk && s'.running == s.running && s'.inSync == s.inSync
    requires Owns(t) ==> DiskFits(s', t)
    requires !s'.locked && s'.inSync ==> s'.disk.exe == s'.running
    ensures Safe(s')
  {
    if Owns(s.tasks[id]) {
      assert forall j :: j in s'.tasks && Owns(s'.tasks[j]) ==> j == id;
    }
    if Owns(t) { assert id in s'.tasks && Owns(s'.tasks[id]); }
    if !Owns(s.tasks[id]) && s.locked {
      var o :| o in s.tasks && Owns(s.tasks[o]);
      assert o in s'.tasks && Owns(s'.tasks[o]);
    }
  }

  /** The steps of an update up to the renaming of the executable. */
  lemma ApplyStepIsSafe(s: State, id: nat, ok: bool, debris: Option<Binary>)
    requires Safe(s) && id in s.tasks
    requires var t := s.tasks[id]; t.UpdateLocked? || t.Checked? || t.Staged? || t.Probed? || t.BackedUp?
    ensures Safe(NextStep(s, id, ok, debris))
    ensures !s.tasks[id].BackedUp? || !ok ==> NextStep(s, id, ok, debris).disk.exe == s.disk.exe
  {
    if s.tasks[id].UpdateLocked? || s.tasks[id].Checked? {
      EarlyStepIsSafe(s, id, ok, debris);
    } else {
      LateStepIsSafe(s, id, ok, debris);
    }
  }

  lemma EarlyStepIsSafe(s: State, id: nat, ok: bool, debris: Option<Binary>)
    requires Safe(s) && id in s.tasks && (s.tasks[id].UpdateLocked? || s.tasks[id].Checked?)
    ensures Safe(NextStep(s, id, ok, debris)) && NextStep(s, id, ok, debris).disk.exe == s.disk.exe
  {
    assert Owns(s.tasks[id]) && s.locked && DiskFits(s, s.tasks[id]);
    var s' := NextStep(s, id, ok, debris);
    TaskMoves(s, s', id, s'.tasks[id]);
  }

  lemma LateStepIsSafe(s: State, id: nat, ok: bool, debris: Option<Binary>)
    requires Safe(s) && id in s.tasks && (s.tasks[id].Staged? || s.tasks[id].Probed? || s.tasks[id].BackedUp?)
    ensures Safe(NextStep(s, id, ok, debris))
    ensures !s.tasks[id].BackedUp? || !ok ==> NextStep(s, id, ok, debris).disk.exe == s.disk.exe
  {
    assert Owns(s.tasks[id]) && s.locked && DiskFits(s, s.tasks[id]);
    var s' := NextStep(s, id, ok, debris);
    TaskMoves(s, s', id, s'.tasks[id]);
  }

  /** The steps of an update from then on. */
  lemma RestartStepIsSafe(s: State, id: nat, ok: bool, debris: Option<Binary>)
    requires Safe(s) && id in s.tasks
    requires var t := s.tasks[id]; t.Swapped? || t.RestartPending? || t.RestartFailed? || t.RestoreCopied?
    ensures Safe(NextStep(s, id, ok, debris))
  {
    var t, s' := s.tasks[id], NextStep(s, id, ok, debris);
    assert Owns(t) && s.locked && DiskFits(s, t);
    if t.RestartPending? && ok {
      assert s' == Exec(s);
    } else {
      TaskMoves(s, s', id, s'.tasks[id]);
    }
  }

  /** The steps of a rollback once it holds the mutex. */
  lemma RollbackStepIsSafe(s: State, id: nat, ok: bool, debris: Option<Binary>)
    requires Safe(s) && id in s.tasks
    requires var t := s.tasks[id]; t.RollbackLocked? || t.RollbackPending? || t.RollbackCopied? || t.RollbackRestored?
    ensures Safe(NextStep(s, id, ok, debris))
  {
    var t, s' := s.tasks[id], NextStep(s, id, ok, debris);
    assert Owns(t) && s.locked && DiskFits(s, t);
    if t.RollbackRestored? && ok {
      assert s' == Exec(s);
    } else {
      TaskMoves(s, s', id, s'.tasks[id]);
    }
  }

  /** The steps that take the mutex, or find that they may not, and the one that releases it. */
  lemma MutexStepIsSafe(s: State, id: nat, ok: bool, debris: Option<Binary>)
    requires Safe(s) && id in s.tasks
    requires var t := s.tasks[id]; t.UpdateArrived? || t.RollbackArrived? || t.RollbackChecked? || t.Unlocking?
    ensures Safe(NextStep(s, id, ok, debris))
  {
    var t, s' := s.tasks[id], NextStep(s, id, ok, debris);
    if t.Unlocking? {
      assert Owns(t) && s.locked && DiskFits(s, t);
    }
    TaskMoves(s, s', id, s'.tasks[id]);
  }

  lemma StepIsSafe(s: State, id: nat, ok: bool, debris: Option<Binary>)
    requires Safe(s) && id in s.tasks
    ensures Safe(NextStep(s, id, ok, debris))
  {
    match s.tasks[id]
    case UpdateArrived(_) => MutexStepIsSafe(s, id, ok, debris);
    case UpdateLocked(_) => ApplyStepIsSafe(s, id, ok, debris);
    case Checked(_) => ApplyStepIsSafe(s, id, ok, debris);
    case Staged(_) => ApplyStepIsSafe(s, id, ok, debris);
    case Probed(_) => ApplyStepIsSafe(s, id, ok, debris);
    case BackedUp(_) => ApplyStepIsSafe(s, id, ok, debris);
    case Swapped(_) => RestartStepIsSafe(s, id, ok, debris);
    case RestartPending(_) => RestartStepIsSafe(s, id, ok, debris);
    case RestartFailed(_) => RestartStepIsSafe(s, id, ok, debris);
    case RestoreCopied(_) => RestartStepIsSafe(s, id, ok, debris);
    case RollbackArrived => MutexStepIsSafe(s, id, ok, debris);
    case RollbackChecked => MutexStepIsSafe(s, id, ok, debris);
    case RollbackLocked => RollbackStepIsSafe(s, id, ok, debris);
    case RollbackPending => RollbackStepIsSafe(s, id, ok, debris);
    case RollbackCopied => RollbackStepIsSafe(s, id, ok, debris);
    case RollbackRestored => RollbackStepIsSafe(s, id, ok, debris);
    case Unlocking => MutexStepIsSafe(s, id, ok, debris);
    case Done =>
  }

  lemma NextIsSafe(s: State, e: Event)
    requires Safe(s)
    ensures Safe(Next(s, e))
  {
    match e
    case UpdateRequest(id, req) => if id !in s.tasks { ArrivalIsSafe(s, id, UpdateArrived(req)); }
    case RollbackRequest(id) => if id !in s.tasks { ArrivalIsSafe(s, id, RollbackArrived); }
    case Advance(id, ok, debris) => if id in s.tasks { StepIsSafe(s, id, ok, debris); }
  }

  lemma ArrivalIsSafe(s: State, id: nat, t: Task)
    requires Safe(s) && id !in s.tasks && !Owns(t)
    ensures Safe(At(s, id, t))
  {
    var s' := At(s, id, t);
    if s.locked {
      var o :| o in s.tasks && Owns(s.tasks[o]);
      assert o in s'.tasks && Owns(s'.tasks[o]);
    }
  }

  /** In every interleaving the mutex is held iff exactly one critical section or scheduled
      closure is outstanding, it is never released while free, and, while it is free and nothing
      has failed since the last exec that may leave them apart, the binary on disk is the one
      that runs. */
  lemma {:induction false} EveryRunIsSafe(s: State, events: seq<Event>)
    requires Initial(s)
    ensures Safe(After(s, events))
  {
    if events != [] {
      EveryRunIsSafe(s, events[..|events| - 1]);
      NextIsSafe(After(s, events[..|events| - 1]), events[|events| - 1]);
    }
  }

  /** What gets exec'd by an update, in every interleaving, is the package of that very command, which
      has matched its checksum and then reported the command's target version. */
  lemma ExecRunsVerifiedPackage(s: State, events: seq<Event>, id: nat, debris: Option<Binary>)
    requires Initial(s)
    requires var now := After(s, events); id in now.tasks && now.tasks[id].RestartPending?
    ensures var now := After(s, events);
            var req := now.tasks[id].req;
            var next := NextStep(now, id, true, debris);
            && next.running == next.disk.exe == req.package
            && ChecksumMatches(req) && req.package.version == req.target
            && !next.locked && next.inSync
  {
    EveryRunIsSafe(s, events);
    var now := After(s, events);
    assert Owns(now.tasks[id]);
  }

  // ----- When the binary on disk is the one that runs -----

  /** The restart closure, run to its end: exec; if that fails, restore; then unlock. */
  function RestartClosure(s: State, id: nat, execOk: bool, copyOk: bool, renameOk: bool, debris: Option<Binary>): State
    requires id in s.tasks && s.tasks[id].RestartPending?
  {
    var s1 := NextStep(s, id, execOk, debris);
    if execOk then s1
    else
      var s2 := NextStep(s1, id, copyOk, debris);
      var s3 := if s2.tasks[id].RestoreCopied? then NextStep(s2, id, renameOk, debris) else s2;
      NextStep(s3, id, true, debris)
  }

  /** The restore of a rollback: the copy, and then the rename. */
  function RestoreSteps(s: State, id: nat, copyOk: bool, renameOk: bool, debris: Option<Binary>): State
    requires id in s.tasks && s.tasks[id].RollbackPending?
  {
    var s1 := NextStep(s, id, copyOk, debris);
    if s1.tasks[id].RollbackCopied? then NextStep(s1, id, renameOk, debris) else s1
  }

  /** The rollback closure, run to its end: restore; if that succeeds, exec; then unlock. */
  function RollbackClosure(s: State, id: nat, copyOk: bool, renameOk: bool, execOk: bool, debris: Option<Binary>): State
    requires id in s.tasks && s.tasks[id].RollbackPending?
  {
    var s2 := RestoreSteps(s, id, copyOk, renameOk, debris);
    if id in s2.tasks && s2.tasks[id].RollbackRestored? then
      var s3 := NextStep(s2, id, execOk, debris);
      if execOk then s3 else NextStep(s3, id, true, debris)
    else if id in s2.tasks then NextStep(s2, id, true, debris)
    else s2
  }

  lemma RestoreStepsEnd(s: State, id: nat, copyOk: bool, renameOk: bool, debris: Option<Binary>)
    requires Safe(s) && id in s.tasks && s.tasks[id].RollbackPending?
    ensures var s2 := RestoreSteps(s, id, copyOk, renameOk, debris);
            var restored := HasBackup(s.disk) && copyOk && renameOk;
            && id in s2.tasks && s2.tasks[id] == (if restored then RollbackRestored else Unlocking)
            && s2.locked && !s2.crashed && s2.running == s.running
            && s2.disk.exe == if restored then s.disk.backup.value else s.disk.exe
  {
    assert Owns(s.tasks[id]);
  }

  /** Exactly when an update leaves the running binary on disk: the exec succeeded, or the
      backup could be restored, or the package was the running binary anyway. */
  lemma RestartKeepsSyncIff(s: State, id: nat, execOk: bool, copyOk: bool, renameOk: bool, debris: Option<Binary>)
    requires Safe(s) && s.inSync && id in s.tasks && s.tasks[id].RestartPending?
    ensures var end := RestartClosure(s, id, execOk, copyOk, renameOk, debris);
            && !end.locked && !end.crashed
            && (end.disk.exe == end.running <==>
                  execOk || (HasBackup(s.disk) && copyOk && renameOk) || s.tasks[id].req.package == s.running)
  {
    assert Owns(s.tasks[id]);
  }

  /** Exactly when a rollback does: it never got to replace the binary, or the exec succeeded, or
      the backup was the running binary anyway. A rollback that restores the backup and then
      fails to exec is not undone, unlike an update. */
  lemma RollbackKeepsSyncIff(s: State, id: nat, copyOk: bool, renameOk: bool, execOk: bool, debris: Option<Binary>)
    requires Safe(s) && s.inSync && id in s.tasks && s.tasks[id].RollbackPending?
    ensures var end := RollbackClosure(s, id, copyOk, renameOk, execOk, debris);
            && !end.locked && !end.crashed
            && (end.disk.exe == end.running <==>
                  !HasBackup(s.disk) || !copyOk || !renameOk || execOk || s.disk.backup.value == s.running)
  {
    RestoreStepsEnd(s, id, copyOk, renameOk, debris);
    assert Owns(s.tasks[id]) && DiskFits(s, s.tasks[id]);
  }

  /** The event makes the agent exec the binary on disk. */
  predicate Execs(s: State, e: Event) {
    e.Advance? && e.ok && e.id in s.tasks && (s.tasks[e.id].RestartPending? || s.tasks[e.id].RollbackRestored?)
  }

  /** The event is a failure that leaves another binary on disk: of the restore after a failed exec
      of an update, or of the exec of a rollback. */
  predicate Parts(s: State, e: Event) {
    e.Advance? && e.id in s.tasks &&
    match s.tasks[e.id]
    case RestartFailed(_) => !HasBackup(s.disk) || !e.ok
    case RestoreCopied(_) => !e.ok
    case RollbackRestored => !e.ok
    case _ => false
  }

  /** The tasks at which the binary on disk may come to differ from the running one, or to equal it. */
  predicate Deciding(t: Task) {
    t.RestartPending? || t.RestartFailed? || t.RestoreCopied? || t.RollbackRestored?
  }

  /** The tasks of a rollback, and those that only take or release the mutex. */
  predicate NotOfUpdate(t: Task) {
    || t.RollbackArrived? || t.RollbackChecked? || t.RollbackLocked? || t.RollbackPending? || t.RollbackCopied?
    || t.RollbackRestored? || t.Unlocking? || t.Done?
  }

  lemma SyncAfterUpdateStep(s: State, id: nat, ok: bool, debris: Option<Binary>)
    requires id in s.tasks && !Deciding(s.tasks[id]) && !NotOfUpdate(s.tasks[id])
    ensures NextStep(s, id, ok, debris).inSync == s.inSync
  {
  }

  lemma SyncAfterOtherStep(s: State, id: nat, ok: bool, debris: Option<Binary>)
    requires id in s.tasks && !Deciding(s.tasks[id]) && NotOfUpdate(s.tasks[id])
    ensures NextStep(s, id, ok, debris).inSync == s.inSync
  {
  }

  lemma SyncAfterOther(s: State, id: nat, ok: bool, debris: Option<Binary>)
    requires id in s.tasks && !Deciding(s.tasks[id])
    ensures NextStep(s, id, ok, debris).inSync == s.inSync
  {
    if NotOfUpdate(s.tasks[id]) {
      SyncAfterOtherStep(s, id, ok, debris);
    } else {
      SyncAfterUpdateStep(s, id, ok, debris);
    }
  }

  lemma SyncAfterDeciding(s: State, id: nat, ok: bool, debris: Option<Binary>)
    requires id in s.tasks && Deciding(s.tasks[id])
    ensures var e := Advance(id, ok, debris);
            NextStep(s, id, ok, debris).inSync <==> Execs(s, e) || (s.inSync && !Parts(s, e))
  {
  }

  lemma SyncAfter(s: State, e: Event)
    ensures Next(s, e).inSync <==> Execs(s, e) || (s.inSync && !Parts(s, e))
  {
    if e.Advance? && e.id in s.tasks {
      if Deciding(s.tasks[e.id]) {
        SyncAfterDeciding(s, e.id, e.ok, e.debris);
      } else {
        SyncAfterOther(s, e.id, e.ok, e.debris);
      }
    }
  }

  ghost predicate ExecsAt(s: State, events: seq<Event>, i: nat) {
    i < |events| && Execs(After(s, events[..i]), events[i])
  }

  ghost predicate PartsAt(s: State, events: seq<Event>, i: nat) {
    i < |events| && Parts(After(s, events[..i]), events[i])
  }

  /** Such a failure, and no exec after it. */
  ghost predicate PartsForGood(s: State, events: seq<Event>, i: nat) {
    PartsAt(s, events, i) && forall j: nat :: j > i ==> !ExecsAt(s, events, j)
  }

  lemma EarlierAt(s: State, events: seq<Event>, i: nat)
    requires i < |events| - 1
    ensures ExecsAt(s, events, i) == ExecsAt(s, events[..|events| - 1], i)
    ensures PartsAt(s, events, i) == PartsAt(s, events[..|events| - 1], i)
  {
    assert events[..|events| - 1][..i] == events[..i];
  }

  lemma {:induction false} SyncLost(s: State, events: seq<Event>) returns (i: nat)
    requires s.inSync && !After(s, events).inSync
    ensures PartsForGood(s, events, i)
  {
    var n := |events| - 1;
    SyncAfter(After(s, events[..n]), events[n]);
    if PartsAt(s, events, n) {
      i := n;
    } else {
      i := SyncLost(s, events[..n]);
      EarlierAt(s, events, i);
      forall j: nat | i < j < n ensures !ExecsAt(s, events, j) {
        EarlierAt(s, events, j);
      }
    }
  }

  lemma {:induction false} SyncStaysLost(s: State, events: seq<Event>, i: nat)
    requires PartsForGood(s, events, i)
    ensures !After(s, events).inSync
  {
    var n := |events| - 1;
    SyncAfter(After(s, events[..n]), events[n]);
    if i == n {
      PartingIsNoExec(After(s, events[..n]), events[n]);
    } else {
      assert !ExecsAt(s, events, n);
      EarlierAt(s, events, i);
      forall j: nat | i < j < n ensures !ExecsAt(s, events[..n], j) {
        EarlierAt(s, events, j);
      }
      SyncStaysLost(s, events[..n], i);
    }
  }

  lemma PartingIsNoExec(s: State, e: Event)
    requires Parts(s, e)
    ensures !Execs(s, e)
  {
  }

  /** Disk and process are in sync after a run exactly if every such failure was followed by an
      exec. */
  lemma InSyncIff(s: State, events: seq<Event>)
    requires s.inSync
    ensures After(s, events).inSync <==> forall i: nat :: !PartsForGood(s, events, i)
  {
    if After(s, events).inSync {
      if i: nat :| PartsForGood(s, events, i) {
        SyncStaysLost(s, events, i);
      }
    } else {
      var i := SyncLost(s, events);
    }
  }

  /** So in every run, while the mutex is free and no such failure is the last word, the binary on
      disk is the one that runs. */
  lemma FreeMeansSame(s: State, events: seq<Event>)
    requires Initial(s) && !After(s, events).locked && forall i: nat :: !PartsForGood(s, events, i)
    ensures After(s, events).disk.exe == After(s, events).running
  {
    InSyncIff(s, events);
    EveryRunIsSafe(s, events);
  }

  lemma AfterSnoc(s: State, events: seq<Event>, e: Event)
    ensures After(s, events + [e]) == Next(After(s, events), e)
  {
    assert (events + [e])[..|events|] == events;
  }

  const GO := Advance(0, true, None)
  const STOP := Advance(0, false, None)

  /** A rollback request that gets as far as having restored the backup. */
  function RestoringRollback(): seq<Event> {
    [RollbackRequest(0)] + [GO] + [GO] + [GO] + [GO] + [GO]
  }

  /** One more event, from a state known already. */
  lemma OneMore(s: State, events: seq<Event>, e: Event, now: State, next: State)
    requires After(s, events) == now && Next(now, e) == next
    ensures After(s, events + [e]) == next
  {
    AfterSnoc(s, events, e);
  }

  /** A state in which one task is under way. */
  function Under(task: Task, locked: bool, disk: Disk, running: Binary): State {
    State(locked, false, map[0 := task], disk, running, true)
  }

  lemma Arrives(disk: Disk, running: Binary)
    ensures Next(State(false, false, map[], disk, running, true), RollbackRequest(0))
         == Under(RollbackArrived, false, disk, running)
  {
  }

  lemma FindsBackup(disk: Disk, running: Binary)
    requires HasBackup(disk)
    ensures Next(Under(RollbackArrived, false, disk, running), GO) == Under(RollbackChecked, false, disk, running)
  {
  }

  lemma Locks(disk: Disk, running: Binary)
    ensures Next(Under(RollbackChecked, false, disk, running), GO) == Under(RollbackLocked, true, disk, running)
    ensures Next(Under(RollbackLocked, true, disk, running), GO) == Under(RollbackPending, true, disk, running)
  {
  }

  lemma CopiesBackup(disk: Disk, running: Binary)
    requires HasBackup(disk)
    ensures Next(Under(RollbackPending, true, disk, running), GO)
         == Under(RollbackCopied, true, disk.(staging := disk.backup), running)
  {
  }

  lemma SwapsIn(disk: Disk, running: Binary)
    requires disk.staging.Some?
    ensures Next(Under(RollbackCopied, true, disk, running), GO)
         == Under(RollbackRestored, true, Disk(disk.staging.value, disk.backup, None), running)
  {
  }

  lemma RestoringRollbackEnds(s: State, one: Binary, two: Binary)
    requires one.bytes != "" && s == State(false, false, map[], Disk(two, Some(one), None), two, true)
    ensures After(s, RestoringRollback()) == Under(RollbackRestored, true, Disk(one, Some(one), None), two)
  {
    var disk := Disk(two, Some(one), None);
    var copied := Disk(two, Some(one), Some(one));
    Arrives(disk, two);
    FindsBackup(disk, two);
    Locks(disk, two);
    CopiesBackup(disk, two);
    SwapsIn(copied, two);
    var es := [RollbackRequest(0)];
    assert es == [] + es;
    OneMore(s, [], RollbackRequest(0), s, Under(RollbackArrived, false, disk, two));
    OneMore(s, es, GO, Under(RollbackArrived, false, disk, two), Under(RollbackChecked, false, disk, two));
    OneMore(s, es + [GO], GO, Under(RollbackChecked, false, disk, two), Under(RollbackLocked, true, disk, two));
    OneMore(s, es + [GO] + [GO], GO, Under(RollbackLocked, true, disk, two), Under(RollbackPending, true, disk, two));
    OneMore(s, es + [GO] + [GO] + [GO], GO, Under(RollbackPending, true, disk, two),
            Under(RollbackCopied, true, copied, two));
    OneMore(s, es + [GO] + [GO] + [GO] + [GO], GO, Under(RollbackCopied, true, copied, two),
            Under(RollbackRestored, true, Disk(one, Some(one), None), two));
  }

  /** So it is not enough that no restore has failed: in this run the rollback restores the
      backup, fails to exec it, and ends with the mutex free and another binary on disk than
      the one that runs. */
  lemma RollbackCanLoseSync(s: State, one: Binary, two: Binary)
    requires one.bytes != "" && one != two
    requires s == State(false, false, map[], Disk(two, Some(one), None), two, true)
    ensures var end := After(s, RestoringRollback() + [STOP] + [GO]);
            Initial(s) && !end.locked && end.disk.exe == one && end.running == two
  {
    RestoringRollbackEnds(s, one, two);
    AfterSnoc(s, RestoringRollback(), STOP);
    AfterSnoc(s, RestoringRollback() + [STOP], GO);
  }
}
