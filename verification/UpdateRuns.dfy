/** Which update and rollback requests go through, and what they leave, among the steps of any
    other requests. */
module UpdateRuns {
  import opened Options
  import opened Text
  import opened SelfUpdate

  // ----- One task among others -----

  predicate IsOwn(e: Event, id: nat) {
    e.Advance? && e.id == id
  }

  /** The steps of one task. */
  function OwnSteps(events: seq<Event>, id: nat): (own: seq<Event>)
    ensures forall i :: 0 <= i < |own| ==> own[i].Advance?
  {
    if events == [] then []
    else
      var init, last := OwnSteps(events[..|events| - 1], id), events[|events| - 1];
      if IsOwn(last, id) then init + [last] else init
  }

  /** The states differ in nothing that concerns the task, the mutex or the binaries. */
  predicate SameFor(a: State, b: State, id: nat) {
    && id in a.tasks && id in b.tasks && a.tasks[id] == b.tasks[id]
    && a == b.(tasks := a.tasks)
  }

  lemma WaitingStep(s: State, other: nat, ok: bool, debris: Option<Binary>)
    requires s.locked && other in s.tasks && !Owns(s.tasks[other])
    ensures var s' := NextStep(s, other, ok, debris);
            other in s'.tasks && s' == s.(tasks := s.tasks[other := s'.tasks[other]])
  {
  }

  /** While a task has the mutex, no other request does anything. */
  lemma OthersWait(s: State, e: Event, id: nat)
    requires Safe(s) && id in s.tasks && Owns(s.tasks[id]) && !IsOwn(e, id)
    ensures SameFor(Next(s, e), s, id)
  {
    assert s.locked;
    if e.Advance? && e.id in s.tasks {
      WaitingStep(s, e.id, e.ok, e.debris);
    }
  }

  // ----- Checksums -----

  /** A checksum matches exactly if it is the digest, in whatever case, with or without white space around
      it; one that is blank never does. */
  lemma ChecksumMatchesIff(req: Request)
    ensures ChecksumMatches(req) <==>
              exists a: string, c: string, b: string ::
                && AllSpace(a) && AllSpace(b) && c != "" && Trimmed(c)
                && req.checksum == a + c + b && Lower(c) == Lower(req.package.digest)
  {
    if ChecksumMatches(req) {
      var a, b := TrimCuts(req.checksum);
      TrimIsTrimmed(req.checksum);
      assert req.checksum == a + Trim(req.checksum) + b;
    }
    if a: string, c: string, b: string :|
      && AllSpace(a) && AllSpace(b) && c != "" && Trimmed(c)
      && req.checksum == a + c + b && Lower(c) == Lower(req.package.digest)
    {
      TrimOfPadded(a, c, b);
      TrimOfTrimmed(c);
    }
  }

  // ----- Updates -----

  /** How far an update has come since it got the mutex, in steps of its own. */
  function UpdateTask(req: Request, j: nat): Task {
    match j
    case 0 => UpdateLocked(req)
    case 1 => Checked(req)
    case 2 => Staged(req)
    case 3 => Probed(req)
    case 4 => BackedUp(req)
    case 5 => Swapped(req)
    case _ => RestartPending(req)
  }

  function UpdateDisk(disk: Disk, req: Request, j: nat): Disk {
    Disk(if j < 5 then disk.exe else req.package,
         if j < 4 then disk.backup else Some(disk.exe),
         if j < 2 then disk.staging else if j < 5 then Some(req.package) else None)
  }

  ghost predicate UpdateAt(start: State, s: State, id: nat, req: Request, j: nat) {
    && id in s.tasks && s.tasks[id] == UpdateTask(req, j) && s.locked
    && s.disk == UpdateDisk(start.disk, req, j)
    && s.running == start.running && s.crashed == start.crashed && s.inSync == start.inSync
  }

  /** The checks of an update up to its j-th step: the target is given and is not what runs, the
      checksum matches, the package can be copied and reports the target, the executable can be
      copied to the backup, and the package can be renamed over it. */
  predicate UpdatePasses(req: Request, running: Binary, own: seq<Event>, j: nat)
    requires j <= |own| && forall i :: 0 <= i < |own| ==> own[i].Advance?
  {
    && (j > 0 ==> req.target != "" && req.target != running.version && own[0].ok && ChecksumMatches(req))
    && (j > 1 ==> own[1].ok)
    && (j > 2 ==> own[2].ok && req.package.version == req.target)
    && (j > 3 ==> own[3].ok)
    && (j > 4 ==> own[4].ok)
  }

  /** An update given up at its j-th step: the executable and the process are as they were, and the
      mutex is about to be released. */
  ghost predicate UpdateRefused(start: State, s: State, id: nat, j: nat) {
    && id in s.tasks && s.tasks[id] == Unlocking && s.locked
    && s.disk.exe == start.disk.exe && s.running == start.running
    && s.crashed == start.crashed && s.inSync == start.inSync
    && (j < 5 ==> s.disk.backup == start.disk.backup)
    && (j < 2 ==> s.disk == start.disk)
    && (j > 2 ==> s.disk.staging == None)
  }

  lemma UpdateEarlyStep(start: State, s: State, id: nat, req: Request, own: seq<Event>, e: Event)
    requires forall i :: 0 <= i < |own| ==> own[i].Advance?
    requires |own| < 3 && UpdateAt(start, s, id, req, |own|) && IsOwn(e, id)
    requires UpdatePasses(req, start.running, own, |own|)
    ensures if UpdatePasses(req, start.running, own + [e], |own| + 1)
            then UpdateAt(start, Next(s, e), id, req, |own| + 1)
            else UpdateRefused(start, Next(s, e), id, |own| + 1)
  {
  }

  lemma UpdateLateStep(start: State, s: State, id: nat, req: Request, own: seq<Event>, e: Event)
    requires forall i :: 0 <= i < |own| ==> own[i].Advance?
    requires 3 <= |own| < 6 && UpdateAt(start, s, id, req, |own|) && IsOwn(e, id)
    requires UpdatePasses(req, start.running, own, |own|)
    ensures if UpdatePasses(req, start.running, own + [e], |own| + 1)
            then UpdateAt(start, Next(s, e), id, req, |own| + 1)
            else UpdateRefused(start, Next(s, e), id, |own| + 1)
  {
  }

  lemma UpdateOnce(start: State, s: State, id: nat, req: Request, own: seq<Event>, e: Event)
    requires forall i :: 0 <= i < |own| ==> own[i].Advance?
    requires |own| < 6 && IsOwn(e, id)
    requires UpdatePasses(req, start.running, own, |own|) ==> UpdateAt(start, s, id, req, |own|)
    ensures if UpdatePasses(req, start.running, own + [e], |own| + 1)
            then UpdateAt(start, Next(s, e), id, req, |own| + 1)
            else UpdatePasses(req, start.running, own + [e], |own|) ==>
              UpdateRefused(start, Next(s, e), id, |own| + 1)
  {
    PassesOfLonger(req, start.running, own, e);
    if UpdatePasses(req, start.running, own, |own|) {
      if |own| < 3 {
        UpdateEarlyStep(start, s, id, req, own, e);
      } else {
        UpdateLateStep(start, s, id, req, own, e);
      }
    }
  }

  lemma PassesOfLonger(req: Request, running: Binary, own: seq<Event>, e: Event)
    requires e.Advance? && forall i :: 0 <= i < |own| ==> own[i].Advance?
    ensures UpdatePasses(req, running, own + [e], |own|) == UpdatePasses(req, running, own, |own|)
    ensures UpdatePasses(req, running, own + [e], |own| + 1) ==> UpdatePasses(req, running, own, |own|)
  {
  }

  lemma UpdateUndisturbed(start: State, s: State, e: Event, id: nat, req: Request, j: nat)
    requires Safe(s) && !IsOwn(e, id)
    ensures UpdateAt(start, s, id, req, j) ==> UpdateAt(start, Next(s, e), id, req, j)
    ensures UpdateRefused(start, s, id, j) ==> UpdateRefused(start, Next(s, e), id, j)
  {
    if UpdateAt(start, s, id, req, j) || UpdateRefused(start, s, id, j) {
      OthersWait(s, e, id);
    }
  }

  /** An update that has the mutex, in every interleaving: as long as its checks pass it goes from
      step to step as if it were alone, and at the first that does not it is given up. */
  lemma {:induction false} UpdateGoesThroughIff(start: State, events: seq<Event>, id: nat, req: Request)
    requires Safe(start) && id in start.tasks && start.tasks[id] == UpdateLocked(req)
    requires |OwnSteps(events, id)| <= 6
    ensures var own := OwnSteps(events, id);
            var s, j := After(start, events), |own|;
            if UpdatePasses(req, start.running, own, j) then UpdateAt(start, s, id, req, j)
            else UpdatePasses(req, start.running, own, j - 1) ==> UpdateRefused(start, s, id, j)
  {
    if events == [] {
      assert start.locked by { assert Owns(start.tasks[id]); }
    } else {
      var n := |events| - 1;
      var init, last := events[..n], events[n];
      var own, s := OwnSteps(init, id), After(start, init);
      UpdateGoesThroughIff(start, init, id, req);
      SafeAfter(start, init);
      if IsOwn(last, id) {
        UpdateOnce(start, s, id, req, own, last);
      } else {
        UpdateUndisturbed(start, s, last, id, req, |own|);
      }
    }
  }

  lemma OwnOfSnoc(own: seq<Event>, e: Event)
    ensures (own + [e])[..|own|] == own && forall i :: 0 <= i < |own| ==> (own + [e])[i] == own[i]
  {
  }

  lemma {:induction false} SafeAfter(s: State, events: seq<Event>)
    requires Safe(s)
    ensures Safe(After(s, events))
  {
    if events != [] {
      SafeAfter(s, events[..|events| - 1]);
      NextIsSafe(After(s, events[..|events| - 1]), events[|events| - 1]);
    }
  }

  /** A request becomes a task of its own, */
  lemma RequestArrives(s: State, id: nat, req: Request)
    requires id !in s.tasks
    ensures Next(s, UpdateRequest(id, req)) == s.(tasks := s.tasks[id := UpdateArrived(req)])
    ensures Next(s, RollbackRequest(id)) == s.(tasks := s.tasks[id := RollbackArrived])
  {
  }

  /** and releasing a mutex that is free would be the end of the process. */
  lemma ReleaseOfFreeCrashes(s: State, id: nat, e: Event)
    requires id in s.tasks && s.tasks[id] == Unlocking && !s.locked && IsOwn(e, id)
    ensures Next(s, e).crashed
  {
  }

  /** A request that finds the mutex held changes nothing; another one takes it. */
  lemma UpdateArrives(s: State, id: nat, req: Request, e: Event)
    requires id in s.tasks && s.tasks[id] == UpdateArrived(req) && IsOwn(e, id)
    ensures Next(s, e) == if s.locked then s.(tasks := s.tasks[id := Done])
                          else s.(tasks := s.tasks[id := UpdateLocked(req)], locked := true)
  {
  }

  /** One that was refused releases the mutex and leaves the binaries alone. */
  lemma RefusedReleases(s: State, id: nat, e: Event)
    requires id in s.tasks && s.tasks[id] == Unlocking && s.locked && IsOwn(e, id)
    ensures Next(s, e) == s.(tasks := s.tasks[id := Done], locked := false)
  {
  }

  /** The exec runs the package; the backup is the binary that ran before. */
  lemma UpdateExecs(start: State, s: State, id: nat, req: Request, e: Event)
    requires UpdateAt(start, s, id, req, 6) && IsOwn(e, id) && e.ok
    ensures Next(s, e) == State(false, start.crashed, map[], Disk(req.package, Some(start.disk.exe), None), req.package,
                                true)
  {
  }

  lemma ExecFails(s: State, id: nat, debris: Option<Binary>)
    requires id in s.tasks && s.tasks[id].RestartPending?
    ensures NextStep(s, id, false, debris) == At(s, id, RestartFailed(s.tasks[id].req))
  {
  }

  /** The steps that put the backup back, and the release of the mutex. */
  function FallBack(s: State, id: nat, copyOk: bool, renameOk: bool, debris: Option<Binary>): State
    requires id in s.tasks && s.tasks[id].RestartFailed?
  {
    var s1 := NextStep(s, id, copyOk, debris);
    NextStep(if s1.tasks[id].RestoreCopied? then NextStep(s1, id, renameOk, debris) else s1, id, true, debris)
  }

  lemma CopiesBack(s: State, id: nat, ok: bool, debris: Option<Binary>)
    requires id in s.tasks && s.tasks[id].RestartFailed?
    ensures var s' := NextStep(s, id, ok, debris);
            var copied := ok && HasBackup(s.disk);
            && s'.tasks == s.tasks[id := if copied then RestoreCopied(s.tasks[id].req) else Unlocking]
            && (copied ==> s'.disk.staging == s.disk.backup)
            && s'.disk.exe == s.disk.exe && s'.disk.backup == s.disk.backup
            && s'.running == s.running && s'.locked == s.locked && s'.crashed == s.crashed
  {
  }

  lemma RenamesBack(s: State, id: nat, ok: bool, debris: Option<Binary>)
    requires id in s.tasks && s.tasks[id].RestoreCopied? && s.disk.staging.Some?
    ensures var s' := NextStep(s, id, ok, debris);
            && s'.tasks == s.tasks[id := Unlocking]
            && s'.disk.exe == (if ok then s.disk.staging.value else s.disk.exe) && s'.disk.backup == s.disk.backup
            && s'.running == s.running && s'.locked == s.locked && s'.crashed == s.crashed
  {
  }

  lemma FallsBack(s: State, id: nat, copyOk: bool, renameOk: bool, debris: Option<Binary>)
    requires id in s.tasks && s.tasks[id].RestartFailed? && s.locked
    ensures var end := FallBack(s, id, copyOk, renameOk, debris);
            && !end.locked && end.crashed == s.crashed && end.running == s.running
            && end.tasks == s.tasks[id := Done]
            && end.disk.backup == s.disk.backup
            && end.disk.exe == if HasBackup(s.disk) && copyOk && renameOk then s.disk.backup.value else s.disk.exe
  {
    CopiesBack(s, id, copyOk, debris);
    var s1 := NextStep(s, id, copyOk, debris);
    if s1.tasks[id].RestoreCopied? {
      RenamesBack(s1, id, renameOk, debris);
      UnlocksLast(NextStep(s1, id, renameOk, debris), id, debris);
    } else {
      UnlocksLast(s1, id, debris);
    }
  }

  lemma UnlocksLast(s: State, id: nat, debris: Option<Binary>)
    requires id in s.tasks && s.tasks[id] == Unlocking && s.locked
    ensures NextStep(s, id, true, debris) == s.(tasks := s.tasks[id := Done], locked := false)
  {
  }

  /** If it fails, the backup is put back, unless that fails or it is empty; the mutex is released. */
  lemma UpdateFallsBack(start: State, s: State, id: nat, req: Request, copyOk: bool, renameOk: bool,
                        debris: Option<Binary>)
    requires UpdateAt(start, s, id, req, 6)
    ensures var end := RestartClosure(s, id, false, copyOk, renameOk, debris);
            && !end.locked && end.crashed == start.crashed && end.running == start.running
            && end.tasks == s.tasks[id := Done]
            && end.disk.backup == Some(start.disk.exe)
            && end.disk.exe == if start.disk.exe.bytes != "" && copyOk && renameOk then start.disk.exe
                               else req.package
  {
    ExecFails(s, id, debris);
    var failed := At(s, id, RestartFailed(req));
    FallsBack(failed, id, copyOk, renameOk, debris);
    assert RestartClosure(s, id, false, copyOk, renameOk, debris) == FallBack(failed, id, copyOk, renameOk, debris);
  }

  // ----- Rollbacks -----

  function RollbackTask(j: nat): Task {
    match j
    case 0 => RollbackLocked
    case 1 => RollbackPending
    case 2 => RollbackCopied
    case _ => RollbackRestored
  }

  ghost predicate RollbackAt(start: State, s: State, id: nat, j: nat) {
    && id in s.tasks && s.tasks[id] == RollbackTask(j) && s.locked
    && (j > 1 ==> start.disk.backup.Some?)
    && s.disk == (if j < 2 then start.disk
                  else if j == 2 then start.disk.(staging := start.disk.backup)
                  else Disk(start.disk.backup.value, start.disk.backup, None))
    && s.running == start.running && s.crashed == start.crashed && s.inSync == start.inSync
  }

  /** The checks of a rollback: there is a backup that can be copied, and renamed over the executable. */
  predicate RollbackPasses(disk: Disk, own: seq<Event>, j: nat)
    requires j <= |own| && forall i :: 0 <= i < |own| ==> own[i].Advance?
  {
    && (j > 1 ==> HasBackup(disk) && own[1].ok)
    && (j > 2 ==> own[2].ok)
  }

  ghost predicate RollbackRefused(start: State, s: State, id: nat) {
    && id in s.tasks && s.tasks[id] == Unlocking && s.locked
    && s.disk.exe == start.disk.exe && s.disk.backup == start.disk.backup && s.running == start.running
    && s.crashed == start.crashed && s.inSync == start.inSync
  }

  lemma RollbackOwnStep(start: State, s: State, id: nat, own: seq<Event>, e: Event)
    requires forall i :: 0 <= i < |own| ==> own[i].Advance?
    requires |own| < 3 && RollbackAt(start, s, id, |own|) && IsOwn(e, id)
    requires RollbackPasses(start.disk, own, |own|)
    ensures if RollbackPasses(start.disk, own + [e], |own| + 1) then RollbackAt(start, Next(s, e), id, |own| + 1)
            else RollbackRefused(start, Next(s, e), id)
  {
  }

  lemma RollbackUndisturbed(start: State, s: State, e: Event, id: nat, j: nat)
    requires Safe(s) && !IsOwn(e, id)
    ensures RollbackAt(start, s, id, j) ==> RollbackAt(start, Next(s, e), id, j)
    ensures RollbackRefused(start, s, id) ==> RollbackRefused(start, Next(s, e), id)
  {
    if RollbackAt(start, s, id, j) || RollbackRefused(start, s, id) {
      OthersWait(s, e, id);
    }
  }

  /** The same for a rollback that has the mutex. */
  lemma {:induction false} RollbackGoesThroughIff(start: State, events: seq<Event>, id: nat)
    requires Safe(start) && id in start.tasks && start.tasks[id] == RollbackLocked
    requires |OwnSteps(events, id)| <= 3
    ensures var own := OwnSteps(events, id);
            var s, j := After(start, events), |own|;
            if RollbackPasses(start.disk, own, j) then RollbackAt(start, s, id, j)
            else RollbackPasses(start.disk, own, j - 1) ==> RollbackRefused(start, s, id)
  {
    if events == [] {
      assert start.locked by { assert Owns(start.tasks[id]); }
    } else {
      var n := |events| - 1;
      var init, last := events[..n], events[n];
      var own, s := OwnSteps(init, id), After(start, init);
      RollbackGoesThroughIff(start, init, id);
      SafeAfter(start, init);
      if IsOwn(last, id) {
        OwnOfSnoc(own, last);
        if RollbackPasses(start.disk, own, |own|) {
          RollbackOwnStep(start, s, id, own, last);
        }
      } else {
        RollbackUndisturbed(start, s, last, id, |own|);
      }
    }
  }

  /** A request without a backup, or that finds the mutex held, changes nothing. */
  lemma RollbackArrives(s: State, id: nat, e: Event)
    requires id in s.tasks && IsOwn(e, id)
    ensures s.tasks[id] == RollbackArrived ==>
              Next(s, e) == s.(tasks := s.tasks[id := if HasBackup(s.disk) then RollbackChecked else Done])
    ensures s.tasks[id] == RollbackChecked ==>
              Next(s, e) == if s.locked then s.(tasks := s.tasks[id := Done])
                            else s.(tasks := s.tasks[id := RollbackLocked], locked := true)
  {
  }

  /** The exec of a rollback runs the backup; if it fails, the backup stays in place of the executable. */
  lemma RollbackExecs(start: State, s: State, id: nat, e: Event)
    requires RollbackAt(start, s, id, 3) && IsOwn(e, id)
    ensures var previous := start.disk.backup.value;
            var disk := Disk(previous, Some(previous), None);
            Next(s, e) == if e.ok then State(false, start.crashed, map[], disk, previous, true)
                          else State(true, start.crashed, s.tasks[id := Unlocking], disk, start.running, false)
  {
  }

  // ----- From the request to the end -----

  /** What the task may be relied on to have left. */
  ghost predicate Released(start: State, s: State, id: nat) {
    && id in s.tasks && s.tasks[id] == Done && !s.locked
    && s.disk.exe == start.disk.exe && s.running == start.running && s.crashed == start.crashed
  }

  ghost predicate AllOwn(events: seq<Event>, id: nat) {
    forall i :: 0 <= i < |events| ==> IsOwn(events[i], id)
  }

  lemma {:induction false} OwnOfOwn(events: seq<Event>, id: nat)
    requires AllOwn(events, id)
    ensures OwnSteps(events, id) == events
  {
    if events != [] {
      OwnOfOwn(events[..|events| - 1], id);
      assert events == events[..|events| - 1] + [events[|events| - 1]];
    }
  }

  lemma {:induction false} AfterOfConcat(s: State, early: seq<Event>, late: seq<Event>)
    ensures After(s, early + late) == After(After(s, early), late)
  {
    if late == [] {
      assert early + late == early;
    } else {
      var init := late[..|late| - 1];
      assert (early + late)[..|early + late| - 1] == early + init;
      AfterOfConcat(s, early, init);
    }
  }

  lemma {:induction false} DoneStays(s: State, events: seq<Event>, id: nat)
    requires id in s.tasks && s.tasks[id] == Done && AllOwn(events, id)
    ensures After(s, events) == s
  {
    if events != [] {
      DoneStays(s, events[..|events| - 1], id);
    }
  }

  ghost predicate GivenUp(start: State, s: State, id: nat) {
    && id in s.tasks && s.tasks[id] == Unlocking && s.locked
    && s.disk.exe == start.disk.exe && s.running == start.running && s.crashed == start.crashed
  }

  lemma RefusedIsReleased(start: State, s: State, events: seq<Event>, id: nat)
    requires GivenUp(start, s, id) && AllOwn(events, id) && events != []
    ensures Released(start, After(s, events), id)
  {
    var first, rest := events[..1], events[1..];
    assert events == first + rest;
    AfterOfConcat(s, first, rest);
    AfterOne(s, events[0]);
    assert first == [events[0]];
    RefusedReleases(s, id, events[0]);
    DoneStays(Next(s, events[0]), rest, id);
  }

  lemma AfterOne(s: State, e: Event)
    ensures After(s, [e]) == Next(s, e)
  {
    assert [e][..0] == [] && After(s, []) == s;
  }

  /** The step at which the checks first fail. */
  lemma {:induction false} FirstFailure(req: Request, running: Binary, own: seq<Event>, n: nat) returns (j: nat)
    requires n <= |own| && forall i :: 0 <= i < |own| ==> own[i].Advance?
    requires !UpdatePasses(req, running, own, n)
    ensures 0 < j <= n && j < 6 && UpdatePasses(req, running, own, j - 1) && !UpdatePasses(req, running, own, j)
  {
    if UpdatePasses(req, running, own, n - 1) {
      j := n;
    } else {
      j := FirstFailure(req, running, own, n - 1);
    }
  }

  lemma SamePasses(req: Request, running: Binary, own: seq<Event>, j: nat)
    requires j <= |own| && forall i :: 0 <= i < |own| ==> own[i].Advance?
    ensures UpdatePasses(req, running, own[..j], j) == UpdatePasses(req, running, own, j)
    ensures j > 0 ==> UpdatePasses(req, running, own[..j], j - 1) == UpdatePasses(req, running, own, j - 1)
  {
  }

  lemma UpdateIsGivenUp(start: State, id: nat, req: Request, own: seq<Event>, j: nat)
    requires Safe(start) && id in start.tasks && start.tasks[id] == UpdateLocked(req)
    requires 0 < j < |own| && j < 6 && AllOwn(own, id)
    requires UpdatePasses(req, start.running, own, j - 1) && !UpdatePasses(req, start.running, own, j)
    ensures GivenUp(start, After(start, own[..j]), id)
  {
    OwnOfOwn(own[..j], id);
    SamePasses(req, start.running, own, j);
    UpdateGoesThroughIff(start, own[..j], id, req);
  }

  lemma UpdateIsReleased(start: State, id: nat, req: Request, own: seq<Event>, j: nat)
    requires Safe(start) && id in start.tasks && start.tasks[id] == UpdateLocked(req)
    requires 0 < j < |own| && j < 6 && AllOwn(own, id)
    requires UpdatePasses(req, start.running, own, j - 1) && !UpdatePasses(req, start.running, own, j)
    ensures Released(start, After(start, own), id)
  {
    var front, rest := own[..j], own[j..];
    UpdateIsGivenUp(start, id, req, own, j);
    RefusedIsReleased(start, After(start, front), rest, id);
    assert own == front + rest;
    AfterOfConcat(start, front, rest);
  }

  /** From getting the mutex on, six steps of its own bring an update to the exec, exactly if all of
      its checks pass; otherwise it has released the mutex, with the executable and the process as
      they were. */
  lemma UpdateAlone(start: State, id: nat, req: Request, own: seq<Event>)
    requires Safe(start) && id in start.tasks && start.tasks[id] == UpdateLocked(req)
    requires |own| == 6 && AllOwn(own, id)
    ensures if UpdatePasses(req, start.running, own, 6) then UpdateAt(start, After(start, own), id, req, 6)
            else Released(start, After(start, own), id)
  {
    if UpdatePasses(req, start.running, own, 6) {
      OwnOfOwn(own, id);
      UpdateGoesThroughIff(start, own, id, req);
    } else {
      var j := FirstFailure(req, start.running, own, 6);
      UpdateIsReleased(start, id, req, own, j);
    }
  }

  /** So a request that finds the mutex free, and is not interrupted, ends with its package running and
      on disk, the old binary as the backup and the mutex free, if everything goes well; and with
      nothing but the backup and the staging copy changed if a check fails. */
  lemma UpdateFromRequest(start: State, id: nat, req: Request, own: seq<Event>)
    requires Safe(start) && id in start.tasks && start.tasks[id] == UpdateArrived(req) && !start.locked
    requires |own| == 8 && AllOwn(own, id)
    ensures if !UpdatePasses(req, start.running, own[1..7], 6) then Released(start, After(start, own), id)
            else own[7].ok ==>
              After(start, own)
              == State(false, start.crashed, map[], Disk(req.package, Some(start.disk.exe), None), req.package, true)
  {
    var locked := Next(start, own[0]);
    NextIsSafe(start, own[0]);
    UpdateArrives(start, id, req, own[0]);
    UpdateAlone(locked, id, req, own[1..7]);
    ThreeParts(start, own);
    var s := After(locked, own[1..7]);
    if UpdatePasses(req, start.running, own[1..7], 6) {
      if own[7].ok {
        UpdateExecs(locked, s, id, req, own[7]);
      }
    } else {
      AfterOne(s, own[7]);
      DoneStays(s, [own[7]], id);
    }
  }

  /** The same with the request itself. */
  lemma UpdateRequested(start: State, id: nat, req: Request, own: seq<Event>)
    requires Safe(start) && id !in start.tasks && !start.locked
    requires |own| == 8 && AllOwn(own, id)
    ensures var end := After(start, [UpdateRequest(id, req)] + own);
            if !UpdatePasses(req, start.running, own[1..7], 6) then Released(start, end, id)
            else own[7].ok ==>
              end
              == State(false, start.crashed, map[], Disk(req.package, Some(start.disk.exe), None), req.package, true)
  {
    RequestArrives(start, id, req);
    NextIsSafe(start, UpdateRequest(id, req));
    AfterOfConcat(start, [UpdateRequest(id, req)], own);
    AfterOne(start, UpdateRequest(id, req));
    UpdateFromRequest(Next(start, UpdateRequest(id, req)), id, req, own);
  }

  lemma ThreeParts(s: State, own: seq<Event>)
    requires |own| == 8
    ensures After(s, own) == Next(After(Next(s, own[0]), own[1..7]), own[7])
  {
    var front := own[..7];
    assert own[..|own| - 1] == front;
    assert front == [own[0]] + own[1..7];
    AfterOfConcat(s, [own[0]], own[1..7]);
    AfterOne(s, own[0]);
  }
}
