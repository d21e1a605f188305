/** The agent's commands that update and roll back the proxy jars of a host.

    The file operations can fail at each of their system calls; where they do is left open.
    The handlers are proved against the functions of JarChanges and JarPlan. */
module JarHandlers {
  import opened Options
  import opened Text
  import opened Lists
  import opened Csv
  import opened Paths
  import opened JarChanges
  import opened JarPlan
  import opened JarOutcome
  import opened JarRollback

  datatype JarError =
    | NoJars
    | BadName(name: string)
    | NotFound(src: Path)
    | UpdateFailed(dst: File)
    | RestoreFailed(jar: Path)

  datatype JarResult = JarResult(
    targetDir: Option<File>, updated: seq<File>, backedUp: seq<File>, restored: seq<Path>, skipped: bool)

  datatype Response = Failed(error: JarError) | Succeeded(result: JarResult)

  function SourcePaths(names: seq<string>): (jars: seq<Path>)
    ensures |jars| == |names|
  {
    seq(|names|, i requires 0 <= i < |names| => Split(names[i], '/'))
  }

  /** The jars an update command names. */
  function JarsOf(jarPaths: string): seq<Path> {
    SourcePaths(Fields(Split(jarPaths, ',')))
  }

  /** They are the paths that its names spell, with any white space around them. */
  lemma JarsOfNames(names: seq<string>, before: seq<string>, behind: seq<string>)
    requires |names| == |before| == |behind| && names != []
    requires forall i :: 0 <= i < |names| ==> IsField(names[i]) && AllSpace(before[i]) && AllSpace(behind[i])
    ensures var jars := JarsOf(Join(Padded(names, before, behind), ','));
            |jars| == |names| && forall i :: 0 <= i < |names| ==> Join(jars[i], '/') == names[i] && FreeOf(jars[i], '/')
  {
    SplitIgnoresPadding(names, before, behind);
    NonEmptyOfFields(names);
    var jars := SourcePaths(names);
    forall i | 0 <= i < |names| ensures Join(jars[i], '/') == names[i] && FreeOf(jars[i], '/') {
      JoinOfSplit(names[i], '/');
    }
  }

  function BackupsOf(changes: seq<Change>): seq<File> {
    if changes == [] then []
    else
      var init, c := BackupsOf(changes[..|changes| - 1]), changes[|changes| - 1];
      if c.backedUp then init + [Bak(c.dst)] else init
  }

  /** The backups of the entries that made one, */
  lemma {:induction false} BackupsAre(changes: seq<Change>, b: File)
    ensures b in BackupsOf(changes) <==> exists c :: c in changes && c.backedUp && Bak(c.dst) == b
  {
    if changes != [] {
      var init, last := changes[..|changes| - 1], changes[|changes| - 1];
      assert changes == init + [last];
      BackupsAre(init, b);
    }
  }

  /** The one was written before the other, and both were backed up. */
  ghost predicate BackedUpInTurn(changes: seq<Change>, a: File, b: File) {
    exists k, l :: 0 <= k < l < |changes| && changes[k].backedUp && changes[l].backedUp
                   && Bak(changes[k].dst) == a && Bak(changes[l].dst) == b
  }

  /** in the order in which they were made. */
  lemma {:induction false} BackupsInTurn(changes: seq<Change>, i: nat, j: nat)
    requires i < j < |BackupsOf(changes)|
    ensures BackedUpInTurn(changes, BackupsOf(changes)[i], BackupsOf(changes)[j])
  {
    var n := |changes| - 1;
    var init := changes[..n];
    var early, backups := BackupsOf(init), BackupsOf(changes);
    if j < |early| {
      BackupsInTurn(init, i, j);
      InTurnLonger(changes, backups[i], backups[j]);
    } else {
      BackupsAre(init, early[i]);
      var k :| 0 <= k < n && init[k].backedUp && Bak(init[k].dst) == early[i];
      assert changes[k] == init[k];
    }
  }

  lemma InTurnLonger(changes: seq<Change>, a: File, b: File)
    requires changes != [] && BackedUpInTurn(changes[..|changes| - 1], a, b)
    ensures BackedUpInTurn(changes, a, b)
  {
    var init := changes[..|changes| - 1];
    var k, l :| 0 <= k < l < |init| && init[k].backedUp && init[l].backedUp
                && Bak(init[k].dst) == a && Bak(init[l].dst) == b;
    assert changes[k] == init[k] && changes[l] == init[l];
  }

  /** The step wrote a file that was there, from the start or since an earlier step. */
  ghost predicate BacksUp(start: Files, steps: seq<Step>, f: File, k: nat) {
    k < |steps| && steps[k].dst == f && (f in start || f in Dsts(steps[..k]))
  }

  /** What a successful update reports of the steps it made. */
  ghost predicate Reports(start: Files, steps: seq<Step>, targetDir: Option<File>, result: JarResult) {
    && result.targetDir == targetDir && result.restored == [] && !result.skipped
    && |result.updated| == |steps|
    && (forall i :: 0 <= i < |steps| ==> result.updated[i] == steps[i].dst)
    && (forall f :: IsJar(f) ==> (Bak(f) in result.backedUp <==> exists k: nat :: BacksUp(start, steps, f, k)))
    && (DistinctDsts(steps) ==> DistinctReport(start, steps, result.backedUp))
  }

  /** With distinct destinations: the backups of those that were there, in order, once each. */
  ghost predicate DistinctReport(start: Files, steps: seq<Step>, backups: seq<File>) {
    && (forall f :: IsJar(f) ==> (Bak(f) in backups <==> f in Dsts(steps) && f in start))
    && (forall i, j :: 0 <= i < j < |backups| ==> WrittenInTurn(steps, backups[i], backups[j]))
  }

  ghost predicate WrittenInTurn(steps: seq<Step>, a: File, b: File) {
    exists k, l :: 0 <= k < l < |steps| && Bak(steps[k].dst) == a && Bak(steps[l].dst) == b && a != b
  }

  lemma {:induction false} LogAt(start: Files, steps: seq<Step>, k: nat)
    requires Runs(start, steps) && k < |steps|
    ensures Log(start, steps)[k].backedUp <==> steps[k].dst in start || steps[k].dst in Dsts(steps[..k])
    ensures IsJar(steps[k].dst)
  {
    var n := |steps| - 1;
    if k < n {
      LogAt(start, steps[..n], k);
      assert steps[..n][..k] == steps[..k];
    } else {
      RunContent(start, steps[..n], steps[n].dst);
    }
  }

  lemma ReportedBackups(start: Files, steps: seq<Step>, f: File)
    requires Runs(start, steps) && IsJar(f)
    ensures Bak(f) in BackupsOf(Log(start, steps)) <==> exists k: nat :: BacksUp(start, steps, f, k)
  {
    var log := Log(start, steps);
    BackupsAre(log, Bak(f));
    if Bak(f) in BackupsOf(log) {
      var k :| 0 <= k < |log| && log[k].backedUp && Bak(log[k].dst) == Bak(f);
      LogAt(start, steps, k);
      SuffixInjective(steps[k].dst, f, ".bak");
      assert BacksUp(start, steps, f, k);
    }
    if k: nat :| BacksUp(start, steps, f, k) {
      LogAt(start, steps, k);
      assert log[k].dst == f;
    }
  }

  lemma ReportsDistinct(start: Files, steps: seq<Step>)
    requires Runs(start, steps) && DistinctDsts(steps)
    ensures DistinctReport(start, steps, BackupsOf(Log(start, steps)))
  {
    var log, backups := Log(start, steps), BackupsOf(Log(start, steps));
    forall f | IsJar(f) ensures Bak(f) in backups <==> f in Dsts(steps) && f in start {
      ReportedBackups(start, steps, f);
      if k: nat :| BacksUp(start, steps, f, k) {
        NotBefore(steps, k);
      }
      if f in Dsts(steps) && f in start {
        var k: nat :| k < |steps| && steps[k].dst == f;
        assert BacksUp(start, steps, f, k);
      }
    }
    forall i, j | 0 <= i < j < |backups| ensures WrittenInTurn(steps, backups[i], backups[j]) {
      BackupsInTurn(log, i, j);
      var k: nat, l: nat :| k < l < |log| && Bak(log[k].dst) == backups[i] && Bak(log[l].dst) == backups[j];
      LogAt(start, steps, k);
      LogAt(start, steps, l);
      if backups[i] == backups[j] {
        SuffixInjective(steps[k].dst, steps[l].dst, ".bak");
        assert false;
      }
    }
  }

  lemma NotBefore(steps: seq<Step>, k: nat)
    requires DistinctDsts(steps) && k < |steps|
    ensures steps[k].dst !in Dsts(steps[..k])
  {
  }

  /** The report of a successful update is exact. */
  lemma ReportIsExact(start: Files, steps: seq<Step>, targetDir: Option<File>)
    requires Runs(start, steps)
    ensures var log := Log(start, steps);
            Reports(start, steps, targetDir, JarResult(targetDir, DstsOf(log), BackupsOf(log), [], false))
  {
    forall f | IsJar(f)
      ensures Bak(f) in BackupsOf(Log(start, steps)) <==> exists k: nat :: BacksUp(start, steps, f, k)
    {
      ReportedBackups(start, steps, f);
    }
    if DistinctDsts(steps) {
      ReportsDistinct(start, steps);
    }
  }

  function DstsOf(changes: seq<Change>): (dsts: seq<File>)
    ensures |dsts| == |changes| && forall i :: 0 <= i < |changes| ==> dsts[i] == changes[i].dst
  {
    seq(|changes|, i requires 0 <= i < |changes| => changes[i].dst)
  }

  ghost function FailedDst(error: Option<JarError>): Option<File> {
    if error.Some? && error.value.UpdateFailed? then Some(error.value.dst) else None
  }

  function ErrorOf(r: Response): Option<JarError> {
    if r.Failed? then Some(r.error) else None
  }

  class JarHost {
    /** The agent's working directory. */
    const cwd: File
    var files: Files
    /** How many system calls have failed. */
    ghost var faults: nat

    function At(p: Path): File { Abs(cwd, p) }

    // ----- File operations -----

    /** Opens, truncates, copies, flushes; a failed copy is removed if it can be, a failed flush
        is left. */
    method CopyFile(src: File, dst: File) returns (ok: bool)
      modifies this`files, this`faults
      ensures ok ==> src in old(files) && files == old(files)[dst := if src == dst then "" else old(files)[src]]
      ensures Agree(files, old(files), {dst})
      ensures faults >= old(faults)
      ensures if faults == old(faults) then ok == (src in old(files)) else !ok
    {
      if src !in files {
        return false;
      }
      ok := Call();
      if !ok {
        return;
      }
      files := files[dst := ""];
      ok := Call();
      if !ok {
        var removed := Call();
        var partial: string := *;
        files := if removed then files - {dst} else files[dst := partial];
        return;
      }
      files := files[dst := files[src]];
      ok := Call();
    }

    /** One system call, which may fail. */
    method Call() returns (ok: bool)
      modifies this`faults
      ensures faults == old(faults) + if ok then 0 else 1
    {
      ok := *;
      faults := faults + if ok then 0 else 1;
    }

    method Rename(src: File, dst: File) returns (ok: bool)
      requires src in files
      modifies this`files, this`faults
      ensures files == if ok then (old(files) - {src})[dst := old(files)[src]] else old(files)
      ensures faults == old(faults) + if ok then 0 else 1
    {
      ok := Call();
      if ok {
        files := (files - {src})[dst := files[src]];
      }
    }

    method Remove(f: File) returns (ok: bool)
      modifies this`files, this`faults
      ensures files == if ok then old(files) - {f} else old(files)
      ensures faults == old(faults) + if ok then 0 else 1
    {
      ok := Call();
      if ok {
        files := files - {f};
      }
    }

    lemma SidecarPaths(p: Path)
      requires EndsInName(p)
      ensures At(WithSuffix(p, ".bak")) == Bak(At(p)) && At(WithSuffix(p, ".new")) == New(At(p))
    {
      AbsOfSuffix(cwd, p, ".bak");
      AbsOfSuffix(cwd, p, ".new");
    }

    /** Replaces a file by another, through a staging copy, without a new backup. */
    method OverwriteFile(src: Path, dst: Path) returns (ok: bool)
      requires At(src) != At(WithSuffix(dst, ".new")) && At(dst) != At(WithSuffix(dst, ".new"))
      modifies this`files, this`faults
      ensures ok ==>
                && At(src) in old(files)
                && files == (old(files) - {At(WithSuffix(dst, ".new"))})[At(dst) := old(files)[At(src)]]
      ensures !ok ==> Agree(files, old(files), {At(WithSuffix(dst, ".new"))})
      ensures faults >= old(faults)
      ensures if faults == old(faults) then ok == (At(src) in old(files)) else !ok
    {
      var tmp := At(WithSuffix(dst, ".new"));
      ok := CopyFile(At(src), tmp);
      if !ok {
        return;
      }
      ok := Rename(tmp, At(dst));
      if !ok {
        var _ := Remove(tmp);
      }
    }

    /** Copies an existing destination to its backup, then overwrites it. On failure the
        destination is as it was; only its sidecars may differ. */
    method ReplaceFileWithBackup(src: Path, dst: Path) returns (backedUp: bool, ok: bool)
      requires EndsInName(dst) && IsJar(At(src)) && IsJar(At(dst))
      modifies this`files, this`faults
      ensures ok ==>
                && At(src) in old(files)
                && files == Replaced(old(files), Step(At(src), At(dst)))
                && backedUp == (At(dst) in old(files))
      ensures !ok ==> Agree(files, old(files), {Bak(At(dst)), New(At(dst))})
      ensures faults >= old(faults)
      ensures if faults == old(faults) then ok == (At(src) in old(files)) else !ok
    {
      var target := At(dst);
      SidecarPaths(dst);
      SidecarsAreApart(target, target);
      SidecarsAreApart(At(src), target);
      backedUp := false;
      if target in files {
        var saved := CopyFile(target, At(WithSuffix(dst, ".bak")));
        if !saved {
          return false, false;
        }
        backedUp := true;
      }
      ghost var secured := files;
      ok := OverwriteFile(src, dst);
      if !ok {
        AgreeChain(files, secured, old(files), {Bak(target)}, {New(target)}, {Bak(target), New(target)});
      }
    }

    /** A jar that was backed up is restored from its backup; another is removed. */
    method RestoreProxyJar(dst: Path, backedUp: bool) returns (ok: bool)
      modifies this`files, this`faults
      ensures ok && backedUp ==>
                && At(WithSuffix(dst, ".bak")) in old(files)
                && files == (old(files) - {At(WithSuffix(dst, ".new"))})
                              [At(dst) := old(files)[At(WithSuffix(dst, ".bak"))]]
      ensures ok && !backedUp ==> files == old(files) - {At(dst)}
      ensures !ok ==> Agree(files, old(files), {At(WithSuffix(dst, ".new"))})
      ensures faults >= old(faults)
      ensures faults == old(faults) && (backedUp ==> At(WithSuffix(dst, ".bak")) in old(files)) ==> ok
    {
      if !backedUp {
        ok := Remove(At(dst));
      } else {
        SuffixesDiffer(cwd, dst);
        ok := OverwriteFile(WithSuffix(dst, ".bak"), dst);
      }
    }

    // ----- Undo -----

    /** Undoes the log backwards, going on after a failure. The entries that were undone are
        all of them unless a failure is reported, and if every backup is there, all but one for
        each call that failed. */
    method Undo(changes: seq<Change>) returns (ok: bool, ghost applied: seq<Change>)
      requires JarLog(changes)
      modifies this`files, this`faults
      ensures forall c :: c in applied ==> c in changes
      ensures ok ==> applied == changes
      ensures Agree(files, UndoneAll(old(files), applied), News(changes))
      ensures faults >= old(faults) && (faults == old(faults) && Backed(old(files), changes) ==> ok)
      ensures Backed(old(files), changes) ==> Missed(changes, applied) <= faults - old(faults)
    {
      ok, applied := true, [];
      for i := |changes| downto 0
        invariant forall c :: c in applied ==> c in changes
        invariant ok ==> applied == changes[i..]
        invariant Agree(files, UndoneAll(old(files), applied), News(changes))
        invariant faults >= old(faults) && (faults == old(faults) && Backed(old(files), changes) ==> ok)
        invariant Backed(old(files), changes) ==> Missed(changes[i..], applied) <= faults - old(faults)
      {
        MissedOfFront(changes, i, applied);
        var restored := UndoEntry(changes, changes[i], old(files), applied);
        if restored {
          applied := [changes[i]] + applied;
        } else {
          ok := false;
        }
      }
    }

    /** One turn of the loop. */
    method UndoEntry(changes: seq<Change>, c: Change, ghost base: Files, ghost applied: seq<Change>) returns (ok: bool)
      requires JarLog(changes) && c in changes && forall c' :: c' in applied ==> c' in changes
      requires Agree(files, UndoneAll(base, applied), News(changes))
      modifies this`files, this`faults
      ensures Agree(files, UndoneAll(base, if ok then [c] + applied else applied), News(changes))
      ensures faults >= old(faults) && (Backed(base, changes) && !ok ==> faults > old(faults))
    {
      ghost var before := files;
      LogEntryPath(c.dst);
      SidecarPaths(PathOf(c.dst));
      BackupStays(base, before, changes, applied, c);
      ok := RestoreProxyJar(PathOf(c.dst), c.backedUp);
      if ok {
        UndoneFront(before, base, changes, c, applied);
      } else {
        assert c.dst in ChangedFiles(changes);
        AgreeChain(files, before, UndoneAll(base, applied), News(changes), {New(c.dst)}, News(changes));
      }
    }

    lemma LogEntryPath(f: File)
      requires IsJar(f) && CleanFile(f)
      ensures EndsInName(PathOf(f)) && At(PathOf(f)) == f
    {
      AbsOfPathOf(cwd, f);
    }

    // ----- Update -----

    lemma WithinAt(done: seq<Step>, src: File, dsts: seq<File>, i: nat)
      requires i <= |dsts|
      ensures var todo := StepsTo(src, dsts);
              && Within(done + todo, done + todo[..i], if i < |dsts| then Some(dsts[i]) else None)
              && (i == |dsts| ==> todo[..i] == todo)
    {
      var todo := StepsTo(src, dsts);
      assert done + todo == (done + todo[..i]) + todo[i..];
    }

    /** One source to each of its destinations, up to the first that fails. */
    method ReplaceEach(src: Path, dsts: seq<File>, changes: seq<Change>, ghost start: Files, ghost steps: seq<Step>)
        returns (failed: Option<File>, changes': seq<Change>, ghost steps': seq<Step>)
      requires IsJar(At(src)) && forall f :: f in dsts ==> IsJar(f) && CleanFile(f)
      requires Recorded(start, steps, changes) && files == Run(start, steps) && At(src) in files
      modifies this`files, this`faults
      ensures faults >= old(faults) && (failed.Some? <==> faults > old(faults))
      ensures Recorded(start, steps', changes')
      ensures Agree(files, Run(start, steps'), Broken(failed))
      ensures Within(steps + StepsTo(At(src), dsts), steps', failed)
      ensures failed.None? ==> files == Run(start, steps') && steps' == steps + StepsTo(At(src), dsts)
    {
      changes', steps' := changes, steps;
      ghost var todo := StepsTo(At(src), dsts);
      for i := 0 to |dsts|
        invariant Recorded(start, steps', changes') && files == Run(start, steps')
        invariant steps' == steps + todo[..i]
        invariant faults == old(faults) && At(src) in files
      {
        LogEntryPath(dsts[i]);
        var backedUp, ok := ReplaceFileWithBackup(src, PathOf(dsts[i]));
        if !ok {
          WithinAt(steps, At(src), dsts, i);
          return Some(dsts[i]), changes', steps';
        }
        ghost var s := Step(At(src), dsts[i]);
        SourceStays(Run(start, steps'), s);
        RecordedOfNext(start, steps', changes', s);
        StepsToOfNext(steps, At(src), dsts, i);
        changes', steps' := changes' + [Change(dsts[i], backedUp)], steps' + [s];
      }
      WithinAt(steps, At(src), dsts, |dsts|);
      failed := None;
    }

    /** One turn of the outer loop: a source is checked and written to each of its destinations. */
    method ReplaceSource(src: Path, targetDir: Option<File>, running: seq<Path>, changes: seq<Change>,
                         ghost start: Files, ghost steps: seq<Step>)
        returns (error: Option<JarError>, changes': seq<Change>, ghost steps': seq<Step>)
      requires targetDir.Some? ==> CleanFile(targetDir.value)
      requires Recorded(start, steps, changes) && files == Run(start, steps)
      modifies this`files, this`faults
      ensures faults >= old(faults) && (FailedDst(error).Some? <==> faults > old(faults))
      ensures Recorded(start, steps', changes') && Agree(files, Run(start, steps'), Broken(FailedDst(error)))
      ensures SourceDone(start, src, targetDir, running, steps, error, steps')
      ensures error.None? ==> files == Run(start, steps')
    {
      changes', steps' := changes, steps;
      error := CheckSource(src);
      if error.Some? {
        return;
      }
      var dsts := ProxyJarDestinations(cwd, targetDir, Base(src), running);
      SourceIsJar(cwd, src);
      DestinationsAreJars(cwd, targetDir, Base(src), running);
      var failed;
      failed, changes', steps' := ReplaceEach(src, dsts, changes, start, steps);
      error := if failed.Some? then Some(UpdateFailed(failed.value)) else None;
    }

    /** How far the steps for one source got, by the error. */
    ghost predicate SourceDone(start: Files, src: Path, targetDir: Option<File>, running: seq<Path>, steps: seq<Step>,
                               error: Option<JarError>, steps': seq<Step>) {
      if error.Some? && !error.value.UpdateFailed? then
        steps' == steps && SourceError(Run(start, steps), src, error.value)
      else
        var todo := steps + StepsTo(At(src), Destinations(cwd, targetDir, Base(src), running));
        IsJarName(Base(src)) && Within(todo, steps', FailedDst(error)) && (error.None? ==> steps' == todo)
    }

    method CheckSource(src: Path) returns (error: Option<JarError>)
      ensures error == if !IsJarName(Base(src)) then Some(BadName(Base(src)))
                       else if At(src) !in files then Some(NotFound(src))
                       else None
    {
      var base := Base(src);
      if !HasPrefix(base, "stx-java-proxy-") || !HasSuffix(base, ".jar") {
        return Some(BadName(base));
      }
      if At(src) !in files {
        return Some(NotFound(src));
      }
      return None;
    }

    /** The sources in turn: each must be named like a proxy jar and be there. */
    method ReplaceAll(jars: seq<Path>, targetDir: Option<File>, running: seq<Path>)
        returns (error: Option<JarError>, changes: seq<Change>, ghost steps: seq<Step>, ghost named: nat)
      requires targetDir.Some? ==> CleanFile(targetDir.value)
      modifies this`files, this`faults
      ensures faults >= old(faults) && (FailedDst(error).Some? <==> faults > old(faults))
      ensures Recorded(old(files), steps, changes)
      ensures Agree(files, Run(old(files), steps), Broken(FailedDst(error)))
      ensures named <= |jars| && JarNames(jars[..named])
      ensures Within(Plan(cwd, targetDir, running, jars[..named]), steps, FailedDst(error))
      ensures error.None? ==>
                named == |jars| && steps == Plan(cwd, targetDir, running, jars) && files == Run(old(files), steps)
      ensures error.Some? && !error.value.UpdateFailed? ==>
                && named < |jars|
                && steps == Plan(cwd, targetDir, running, jars[..named])
                && SourceError(Run(old(files), steps), jars[named], error.value)
    {
      changes, steps, named := [], [], 0;
      error := None;
      for i := 0 to |jars|
        invariant error.None? && faults == old(faults) && named == i && JarNames(jars[..i])
        invariant Recorded(old(files), steps, changes) && files == Run(old(files), steps)
        invariant steps == Plan(cwd, targetDir, running, jars[..i])
      {
        ghost var before := steps;
        error, changes, steps := ReplaceSource(jars[i], targetDir, running, changes, old(files), steps);
        if error.Some? && !error.value.UpdateFailed? {
          return;
        }
        JarNamesOfNext(jars, i);
        assert Plan(cwd, targetDir, running, jars[..i + 1])
            == before + StepsTo(At(jars[i]), Destinations(cwd, targetDir, Base(jars[i]), running)) by {
          PlanOfNext(cwd, targetDir, running, jars, i);
        }
        named := i + 1;
        if error.Some? {
          return;
        }
      }
      assert jars[..|jars|] == jars;
    }

    /** The restart routine may run the undo it is given any number of times: once for each proxy
        that is not healthy on the new jars. One run that goes through is enough. */
    method RestartRunningProxies(changes: seq<Change>) returns (ghost undone: bool, ghost applied: seq<Change>)
      requires JarLog(changes)
      modifies this`files, this`faults
      ensures forall c :: c in applied ==> c in changes
      ensures undone ==> InFull(applied, changes)
      ensures Agree(files, UndoneAll(old(files), applied), News(changes))
      ensures faults >= old(faults)
      ensures faults == old(faults) && Backed(old(files), changes) ==> undone || (applied == [] && files == old(files))
    {
      undone, applied := false, [];
      var unhealthy: nat :| true;
      for i := 0 to unhealthy
        invariant forall c :: c in applied ==> c in changes
        invariant undone ==> InFull(applied, changes)
        invariant Agree(files, UndoneAll(old(files), applied), News(changes))
        invariant faults >= old(faults)
        invariant faults == old(faults) && Backed(old(files), changes) ==>
                    undone || (applied == [] && files == old(files))
      {
        ghost var earlier := applied;
        var ok;
        ghost var now;
        ok, now, applied := UndoOnceMore(changes, old(files), applied);
        if undone {
          InFullStays(changes, earlier, now);
        }
        if ok {
          InFullNow(changes, earlier);
        }
        undone := undone || ok;
      }
    }

    /** One more run of the undo, on top of what others have undone. */
    method UndoOnceMore(changes: seq<Change>, ghost base: Files, ghost earlier: seq<Change>)
        returns (ok: bool, ghost now: seq<Change>, ghost applied: seq<Change>)
      requires JarLog(changes) && forall c :: c in earlier ==> c in changes
      requires Agree(files, UndoneAll(base, earlier), News(changes))
      modifies this`files, this`faults
      ensures applied == now + earlier && (forall c :: c in applied ==> c in changes)
      ensures ok ==> now == changes
      ensures Agree(files, UndoneAll(base, applied), News(changes))
      ensures faults >= old(faults) && (faults == old(faults) && Backed(base, changes) ==> ok)
    {
      ghost var before, target := files, UndoneAll(base, earlier);
      forall c | c in changes && c.backedUp && Bak(c.dst) in base ensures Bak(c.dst) in before {
        BackupStays(base, before, changes, earlier, c);
      }
      ok, now := Undo(changes);
      UndoneAgain(before, target, changes, now);
      AgreeChain(files, UndoneAll(before, now), UndoneAll(target, now), News(changes), News(changes), News(changes));
      UndoneOfConcat(base, now, earlier);
      applied := now + earlier;
    }

    /** The update command. Its files end in one of three ways: as they were, apart from
        sidecars; with every jar at each of its destinations; or, when an undo itself failed,
        with each destination old or new. The last needs a call to fail after the undo began,
        which is where the count of failures stood at undoFrom. */
    method UpdateProxyJars(jarPaths: string, targetDir: Option<File>, running: seq<Path>, restartRunning: bool)
        returns (r: Response, ghost steps: seq<Step>, ghost undos: seq<Change>, ghost undone: bool, ghost undoFrom: nat)
      requires targetDir.Some? ==> CleanFile(targetDir.value)
      modifies this`files, this`faults
      ensures old(faults) <= undoFrom <= faults && (FailedDst(ErrorOf(r)).Some? <==> undoFrom > old(faults))
      ensures JarsOf(jarPaths) == [] ==> r == Failed(NoJars) && files == old(files)
      ensures JarsOf(jarPaths) != [] && targetDir.None? && running == [] ==>
                r == Succeeded(JarResult(None, [], [], [], true)) && files == old(files)
      ensures JarsOf(jarPaths) != [] && (targetDir.Some? || running != []) ==>
                && Updated(old(files), JarsOf(jarPaths), targetDir, running, restartRunning,
                           r, steps, undos, undone, files)
                && (faults == undoFrom ==>
                      Finished(old(files), JarsOf(jarPaths), targetDir, running, r, steps, undone, files))
                && GoesOn(old(files), r, steps, undos, faults - undoFrom)
    {
      var names := SplitCSV(jarPaths);
      var jars := SourcePaths(names);
      steps, undos, undone, undoFrom := [], [], false, faults;
      if |jars| == 0 {
        return Failed(NoJars), steps, undos, undone, undoFrom;
      }
      if targetDir.None? && |running| == 0 {
        return Succeeded(JarResult(None, [], [], [], true)), steps, undos, undone, undoFrom;
      }
      r, steps, undos, undone, undoFrom := WriteOrUndo(jars, targetDir, running, restartRunning);
    }

    /** What the command leaves when there are jars and places for them. */
    ghost predicate Updated(start: Files, jars: seq<Path>, targetDir: Option<File>, running: seq<Path>, restart: bool,
                            r: Response, steps: seq<Step>, undos: seq<Change>, undone: bool, after: Files) {
      var plan := Plan(cwd, targetDir, running, jars);
      var log := Log(start, steps);
      && Runs(start, steps) && steps <= plan
      && (r.Failed? ==> Explained(start, jars, targetDir, running, steps, r.error))
      && (r.Failed? && undone ==> UndoneExactly(start, steps, FailedDst(ErrorOf(r)), after))
      && Agree(after, start, Dsts(plan) + Sidecars(Dsts(plan)))
      && BackupsAsRun(start, steps, FailedDst(ErrorOf(r)), after)
      && (DistinctBases(jars) && undone ==> Agree(after, start, Sidecars(Dsts(plan))))
      && (DistinctBases(jars) ==> DistinctDsts(steps) && OldOrNew(start, steps, after, Sidecars(Dsts(plan))))
      && (DistinctBases(jars) ==> UndoneAreOld(start, undos, after, Sidecars(Dsts(plan))))
      && (r.Succeeded? ==>
            && JarNames(jars) && steps == plan
            && Reports(start, plan, targetDir, r.result)
            && (DistinctBases(jars) && !restart ==> NewJarsInPlace(cwd, targetDir, running, jars, start, after))
            && Agree(after, UndoneAll(Run(start, plan), undos), News(log))
            && (!restart ==> after == Run(start, plan)))
    }

    /** When no call failed after the undo began: a failed command has been undone, unless the
        destination that failed had been written before; and a command that succeeded has either
        been undone for the sake of a proxy or left all the new jars. */
    ghost predicate Finished(start: Files, jars: seq<Path>, targetDir: Option<File>, running: seq<Path>,
                             r: Response, steps: seq<Step>, undone: bool, after: Files) {
      var plan := Plan(cwd, targetDir, running, jars);
      var failed := FailedDst(ErrorOf(r));
      && (r.Failed? && (failed.None? || failed.value !in Dsts(steps)) ==> undone)
      && (r.Failed? && DistinctBases(jars) ==> Agree(after, start, Sidecars(Dsts(plan))))
      && (r.Succeeded? && !undone ==> after == Run(start, plan))
    }

    /** The undo of a failed command passes over at most one entry for each call that fails meanwhile,
        unless the destination that failed had been written before. */
    ghost predicate GoesOn(start: Files, r: Response, steps: seq<Step>, undos: seq<Change>, failures: nat) {
      var failed := FailedDst(ErrorOf(r));
      r.Failed? && (failed.None? || failed.value !in Dsts(steps)) ==> Missed(Log(start, steps), undos) <= failures
    }

    /** Why an update failed: at the destination that comes next in the plan, or at the first
        source that is not named like a proxy jar or is not there when its turn comes. */
    ghost predicate Explained(start: Files, jars: seq<Path>, targetDir: Option<File>, running: seq<Path>,
                              steps: seq<Step>, error: JarError) {
      if error.UpdateFailed? then Within(Plan(cwd, targetDir, running, jars), steps, Some(error.dst))
      else
        exists k :: 0 <= k < |jars| && JarNames(jars[..k])
                    && steps == Plan(cwd, targetDir, running, jars[..k])
                    && SourceError(Run(start, steps), jars[k], error)
    }

    ghost predicate SourceError(now: Files, src: Path, error: JarError) {
      if !IsJarName(Base(src)) then error == BadName(Base(src)) else error == NotFound(src) && At(src) !in now
    }

    method WriteOrUndo(jars: seq<Path>, targetDir: Option<File>, running: seq<Path>, restartRunning: bool)
        returns (r: Response, ghost steps: seq<Step>, ghost undos: seq<Change>, ghost undone: bool, ghost undoFrom: nat)
      requires targetDir.Some? ==> CleanFile(targetDir.value)
      modifies this`files, this`faults
      ensures old(faults) <= undoFrom <= faults && (FailedDst(ErrorOf(r)).Some? <==> undoFrom > old(faults))
      ensures Updated(old(files), jars, targetDir, running, restartRunning, r, steps, undos, undone, files)
      ensures r.Failed? && undone ==> undos == Log(old(files), steps)
      ensures faults == undoFrom ==> Finished(old(files), jars, targetDir, running, r, steps, undone, files)
      ensures GoesOn(old(files), r, steps, undos, faults - undoFrom)
    {
      var error, changes;
      ghost var named;
      error, changes, steps, named := ReplaceAll(jars, targetDir, running);
      ghost var now := files;
      undoFrom := faults;
      PlanPrefix(cwd, targetDir, running, jars, named);
      assert jars[..|jars|] == jars;
      if FailedDst(error).Some? {
        FailedIsJar(jars[..named], targetDir, running, |steps|);
      }
      r, undos, undone := Conclude(targetDir, restartRunning, error, changes);
      if FailedDst(error).None? || FailedDst(error).value !in Dsts(steps) {
        LogStaysBacked(old(files), steps, changes, FailedDst(error), now);
      }
      AnyOutcome(old(files), jars, targetDir, running, steps, changes, named, FailedDst(error), now, undos, files);
      if r.Succeeded? {
        SuccessOutcome(old(files), jars, targetDir, running);
      }
      if DistinctBases(jars) {
        Outcome(old(files), jars, targetDir, running, steps, changes, named, FailedDst(error), now, undos, files);
      }
    }

    /** After the loops: the undo on an error, else the report and the restart. */
    method Conclude(targetDir: Option<File>, restartRunning: bool, error: Option<JarError>, changes: seq<Change>)
        returns (r: Response, ghost undos: seq<Change>, ghost undone: bool)
      requires JarLog(changes)
      modifies this`files, this`faults
      ensures faults >= old(faults)
      ensures r == if error.Some? then Failed(error.value)
                   else Succeeded(JarResult(targetDir, DstsOf(changes), BackupsOf(changes), [], false))
      ensures r.Succeeded? ==>
                forall b :: b in r.result.backedUp <==> exists c :: c in changes && c.backedUp && Bak(c.dst) == b
      ensures forall c :: c in undos ==> c in changes
      ensures Agree(files, UndoneAll(old(files), undos), News(changes))
      ensures undone ==> InFull(undos, changes) && (r.Failed? ==> undos == changes)
      ensures faults == old(faults) && Backed(old(files), changes) ==> undone || (r.Succeeded? && files == old(files))
      ensures r.Failed? && Backed(old(files), changes) ==> Missed(changes, undos) <= faults - old(faults)
      ensures r.Succeeded? && !restartRunning ==> files == old(files) && !undone && undos == []
    {
      undos, undone := [], false;
      if error.Some? {
        undone, undos := Undo(changes);
        InFullNow(changes, []);
        assert changes + [] == changes;
        return Failed(error.value), undos, undone;
      }
      forall b ensures b in BackupsOf(changes) <==> exists c :: c in changes && c.backedUp && Bak(c.dst) == b {
        BackupsAre(changes, b);
      }
      r := Succeeded(JarResult(targetDir, DstsOf(changes), BackupsOf(changes), [], false));
      if restartRunning {
        undone, undos := RestartRunningProxies(changes);
      }
    }

    /** Whatever base names the sources have. */
    lemma AnyOutcome(start: Files, jars: seq<Path>, targetDir: Option<File>, running: seq<Path>,
                     steps: seq<Step>, changes: seq<Change>, named: nat, failed: Option<File>,
                     now: Files, applied: seq<Change>, after: Files)
      requires named <= |jars|
      requires Attempted(start, steps, changes, Plan(cwd, targetDir, running, jars[..named]), failed,
                         now, applied, after)
      ensures var whole := Plan(cwd, targetDir, running, jars);
              steps <= whole && Agree(after, start, Dsts(whole) + Sidecars(Dsts(whole)))
      ensures applied == changes ==> UndoneExactly(start, steps, failed, after)
      ensures BackupsAsRun(start, steps, failed, after)
    {
      PlanPrefix(cwd, targetDir, running, jars, named);
      AttemptOutcome(start, steps, changes, Plan(cwd, targetDir, running, jars[..named]),
                     Plan(cwd, targetDir, running, jars), failed, now, applied, after);
    }

    /** With distinct base names. */
    lemma Outcome(start: Files, jars: seq<Path>, targetDir: Option<File>, running: seq<Path>,
                  steps: seq<Step>, changes: seq<Change>, named: nat, failed: Option<File>,
                  now: Files, applied: seq<Change>, after: Files)
      requires targetDir.Some? ==> CleanFile(targetDir.value)
      requires DistinctBases(jars) && named <= |jars| && JarNames(jars[..named])
      requires Attempted(start, steps, changes, Plan(cwd, targetDir, running, jars[..named]), failed,
                         now, applied, after)
      ensures AllOrNothing(start, steps, changes, Plan(cwd, targetDir, running, jars), failed, applied, after)
    {
      PlanPrefix(cwd, targetDir, running, jars, named);
      PlanIsDistinct(cwd, targetDir, running, jars[..named]);
      DistinctOutcome(start, steps, changes, Plan(cwd, targetDir, running, jars[..named]),
                      Plan(cwd, targetDir, running, jars), failed, now, applied, after);
    }

    /** What a run of the whole plan is reported to have done, and does. */
    lemma SuccessOutcome(start: Files, jars: seq<Path>, targetDir: Option<File>, running: seq<Path>)
      requires targetDir.Some? ==> CleanFile(targetDir.value)
      requires JarNames(jars) && Runs(start, Plan(cwd, targetDir, running, jars))
      ensures var plan := Plan(cwd, targetDir, running, jars);
              var log := Log(start, plan);
              && Reports(start, plan, targetDir, JarResult(targetDir, DstsOf(log), BackupsOf(log), [], false))
              && (DistinctBases(jars) ==>
                    NewJarsInPlace(cwd, targetDir, running, jars, start, Run(start, plan)))
    {
      ReportIsExact(start, Plan(cwd, targetDir, running, jars), targetDir);
      if DistinctBases(jars) {
        PlanPutsInPlace(cwd, targetDir, running, jars, start);
      }
    }

    lemma FailedIsJar(jars: seq<Path>, targetDir: Option<File>, running: seq<Path>, k: nat)
      requires targetDir.Some? ==> CleanFile(targetDir.value)
      requires JarNames(jars) && k < |Plan(cwd, targetDir, running, jars)|
      ensures IsJar(Plan(cwd, targetDir, running, jars)[k].dst)
    {
      var i := PlanStep(cwd, targetDir, running, jars, k);
      DestinationsAreJars(cwd, targetDir, Base(jars[i]), running);
    }

    /** What a rollback makes of the files after a successful update and then one that failed and was
        undone, as the update command leaves them. */
    lemma RollbackAfterFailure(fs: Files, first: seq<Step>, between: Files, jars: seq<Path>, targetDir: Option<File>,
                               running: seq<Path>, restart: bool, r: Response, steps: seq<Step>, undos: seq<Change>,
                               after: Files, candidates: seq<Path>, f: File)
      requires Runs(fs, first) && DistinctDsts(first) && f in Dsts(first) && f in fs && fs[f] != ""
      requires between == Run(fs, first)
      requires Updated(between, jars, targetDir, running, restart, r, steps, undos, true, after)
      requires r.Failed? && DistinctBases(jars) && FailedDst(ErrorOf(r)) != Some(f)
      requires (targetDir.Some? ==> CleanFile(targetDir.value)) && JarPaths(candidates) && Denoted(cwd, candidates, f)
      ensures SameAt(RestoredAll(cwd, after, candidates), fs, f) <==> f !in Dsts(steps) || SameAt(between, fs, f)
    {
      assert IsJar(f) by { LogOfFirst(fs, first, f); }
      assert SameAt(after, between, f) by { JarIsNoSidecar(f, Dsts(Plan(cwd, targetDir, running, jars))); }
      assert SameAt(after, Run(between, steps), Bak(f));
      UndoneUpdateSpoilsRollbackIff(cwd, fs, first, between, steps, after, candidates, f);
    }

    // ----- Rollback -----

    /** filepath.Glob for the proxy jars of a directory. */
    method Glob(dir: File) returns (matches: seq<Path>)
      ensures Matches(files, dir, matches)
    {
      matches := [];
      var found := set f | f in files && InDir(f, dir);
      var todo := found;
      while todo != {}
        invariant todo <= found
        invariant forall f :: f in found - todo ==> PathOf(f) in matches
        invariant forall p :: p in matches ==> exists f :: f in found && p == PathOf(f)
        decreases |todo|
      {
        var f :| f in todo;
        todo := todo - {f};
        matches := matches + [PathOf(f)];
      }
    }

    /** One candidate: left alone without a usable backup, and otherwise restored from it. */
    method RollbackOne(jar: Path) returns (restored: bool, ok: bool)
      modifies this`files, this`faults
      ensures restored == Restorable(cwd, old(files), jar)
      ensures ok ==> files == Restored(cwd, old(files), jar)
      ensures !ok ==> Agree(files, old(files), {At(WithSuffix(jar, ".new"))})
      ensures faults >= old(faults) && (faults == old(faults) ==> ok)
    {
      var bak := At(WithSuffix(jar, ".bak"));
      if bak !in files || |files[bak]| == 0 {
        return false, true;
      }
      restored := true;
      ok := RestoreProxyJar(jar, true);
    }

    /** The rollback command: every candidate once, in order, until a restoration fails. */
    method RollbackProxyJars(targetDir: Option<File>, running: seq<Path>)
        returns (r: Response, ghost candidates: seq<Path>)
      modifies this`files, this`faults
      ensures RollbackCandidates(old(files), targetDir, running, candidates)
      ensures RolledBack(old(files), Dedup(candidates), targetDir, r, files)
      ensures faults >= old(faults) && (faults == old(faults) ==> r.Succeeded?)
    {
      var matches := [];
      if targetDir.Some? {
        matches := Glob(targetDir.value);
      }
      candidates := matches + running;
      var report, failed := RollbackEach(matches + running);
      if failed.Some? {
        return Failed(RestoreFailed(failed.value)), candidates;
      }
      r := Succeeded(JarResult(targetDir, [], [], report, |report| == 0));
    }

    method RollbackEach(jars: seq<Path>) returns (report: seq<Path>, failed: Option<Path>)
      modifies this`files, this`faults
      ensures failed.None? ==>
                files == RestoredAll(cwd, old(files), Dedup(jars)) && report == ReportOf(cwd, old(files), Dedup(jars))
      ensures failed.Some? ==>
                exists k: nat :: Stopped(old(files), Dedup(jars), k, failed.value, files)
      ensures faults >= old(faults) && (faults == old(faults) ==> failed.None?)
    {
      var seen: set<Path> := {};
      report := [];
      ghost var done: seq<Path> := [];
      for i := 0 to |jars|
        invariant done == Dedup(jars[..i]) && seen == Set(jars[..i])
        invariant files == RestoredAll(cwd, old(files), done)
        invariant report == ReportOf(cwd, old(files), done)
        invariant faults >= old(faults)
      {
        var jar := jars[i];
        DedupOfNext(jars, i);
        if jar in seen {
          continue;
        }
        seen := seen + {jar};
        RestoredOfSnoc(cwd, old(files), done, jar);
        var restored, ok := RollbackOne(jar);
        if !ok {
          assert Stopped(old(files), Dedup(jars), |done|, jar, files);
          return report, Some(jar);
        }
        done := done + [jar];
        if restored {
          report := report + [jar];
        }
      }
      assert jars[..|jars|] == jars;
      failed := None;
    }

    lemma DedupOfNext(jars: seq<Path>, i: nat)
      requires i < |jars|
      ensures Set(jars[..i + 1]) == Set(jars[..i]) + {jars[i]}
      ensures var done := Dedup(jars[..i]);
              if jars[i] in Set(jars[..i]) then Dedup(jars[..i + 1]) == done
              else
                && Dedup(jars[..i + 1]) == done + [jars[i]]
                && |done| < |Dedup(jars)| && Dedup(jars)[|done|] == jars[i] && Dedup(jars)[..|done|] == done
    {
      assert jars[..i + 1] == jars[..i] + [jars[i]];
      DedupOfSnoc(jars[..i], jars[i]);
      DedupPrefix(jars, i + 1);
    }

    ghost predicate RolledBack(start: Files, jars: seq<Path>, targetDir: Option<File>, r: Response, after: Files) {
      if r.Succeeded? then
        && after == RestoredAll(cwd, start, jars)
        && r.result == JarResult(targetDir, [], [], ReportOf(cwd, start, jars), ReportOf(cwd, start, jars) == [])
      else
        r.error.RestoreFailed? && exists k: nat :: Stopped(start, jars, k, r.error.jar, after)
    }

    /** So a rollback that succeeded reports each candidate with a usable backup, once, in order, and says
        that it was skipped exactly if there is none. */
    lemma RollbackReports(start: Files, candidates: seq<Path>, targetDir: Option<File>, r: Response, after: Files)
      requires JarPaths(candidates) && r.Succeeded? && RolledBack(start, Dedup(candidates), targetDir, r, after)
      ensures forall jar :: jar in r.result.restored <==> jar in candidates && HasBackup(start, At(jar))
      ensures forall i, j :: 0 <= i < j < |r.result.restored| ==>
                && r.result.restored[i] != r.result.restored[j]
                && ListedInTurn(Dedup(candidates), r.result.restored[i], r.result.restored[j])
      ensures r.result.skipped <==> forall jar :: jar in candidates ==> !HasBackup(start, At(jar))
      ensures r.result.targetDir == targetDir && r.result.updated == [] && r.result.backedUp == []
    {
      forall jar ensures jar in r.result.restored <==> jar in candidates && HasBackup(start, At(jar)) {
        RollbackReport(cwd, start, candidates, jar);
      }
      RollbackReport(cwd, start, candidates, [""]);
      if r.result.restored != [] {
        assert r.result.restored[0] in r.result.restored;
      }
    }

    /** The k-th candidate could not be restored: those before it are, and of it at most the staging
        copy changed. */
    ghost predicate Stopped(start: Files, jars: seq<Path>, k: nat, jar: Path, after: Files) {
      && k < |jars| && jars[k] == jar
      && Agree(after, RestoredAll(cwd, start, jars[..k]), {At(WithSuffix(jar, ".new"))})
    }
  }
}
