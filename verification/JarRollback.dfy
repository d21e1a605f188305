/** What rolling proxy jars back from their backups does, and how it undoes an update. */
module JarRollback {
  import opened Options
  import opened Text
  import opened Lists
  import opened Paths
  import opened JarChanges
  import opened JarPlan

  /** A backup that the rollback uses: there, and not empty. */
  predicate Restorable(cwd: File, fs: Files, jar: Path) {
    var bak := Abs(cwd, WithSuffix(jar, ".bak"));
    bak in fs && fs[bak] != ""
  }

  function Restored(cwd: File, fs: Files, jar: Path): Files {
    if Restorable(cwd, fs, jar) then
      (fs - {Abs(cwd, WithSuffix(jar, ".new"))})[Abs(cwd, jar) := fs[Abs(cwd, WithSuffix(jar, ".bak"))]]
    else fs
  }

  function RestoredAll(cwd: File, fs: Files, jars: seq<Path>): Files {
    if jars == [] then fs
    else Restored(cwd, RestoredAll(cwd, fs, jars[..|jars| - 1]), jars[|jars| - 1])
  }

  /** The jars that the rollback reports. */
  function ReportOf(cwd: File, fs: Files, jars: seq<Path>): seq<Path> {
    if jars == [] then []
    else
      var init, jar := jars[..|jars| - 1], jars[|jars| - 1];
      var report := ReportOf(cwd, fs, init);
      if Restorable(cwd, RestoredAll(cwd, fs, init), jar) then report + [jar] else report
  }

  lemma RestoredOfSnoc(cwd: File, fs: Files, jars: seq<Path>, jar: Path)
    ensures var now := RestoredAll(cwd, fs, jars);
            && RestoredAll(cwd, fs, jars + [jar]) == Restored(cwd, now, jar)
            && ReportOf(cwd, fs, jars + [jar]) ==
               ReportOf(cwd, fs, jars) + (if Restorable(cwd, now, jar) then [jar] else [])
  {
    assert (jars + [jar])[..|jars|] == jars;
  }

  /** A path that ends in the name of a jar, as the paths of running proxies do. */
  predicate IsJarPath(jar: Path) {
    EndsInName(jar) && HasSuffix(jar[|jar| - 1], ".jar")
  }

  ghost predicate JarPaths(jars: seq<Path>) {
    forall p :: p in jars ==> IsJarPath(p)
  }

  lemma JarPathFiles(cwd: File, jar: Path)
    requires IsJarPath(jar)
    ensures IsJar(Abs(cwd, jar))
    ensures Abs(cwd, WithSuffix(jar, ".bak")) == Bak(Abs(cwd, jar))
    ensures Abs(cwd, WithSuffix(jar, ".new")) == New(Abs(cwd, jar))
  {
    AbsOfNamed(cwd, jar);
    AbsOfSuffix(cwd, jar, ".bak");
    AbsOfSuffix(cwd, jar, ".new");
  }

  ghost predicate Denoted(cwd: File, jars: seq<Path>, f: File) {
    exists p :: p in jars && Abs(cwd, p) == f
  }

  ghost predicate HasBackup(fs: Files, f: File) {
    Bak(f) in fs && fs[Bak(f)] != ""
  }

  /** One restoration, seen from one jar, from its backup and from its staging copy. */
  lemma RestoredAt(cwd: File, fs: Files, jar: Path, f: File)
    requires IsJarPath(jar) && IsJar(f)
    ensures var after := Restored(cwd, fs, jar);
            && SameAt(after, fs, Bak(f))
            && (if f == Abs(cwd, jar) && HasBackup(fs, f) then f in after && after[f] == fs[Bak(f)] && New(f) !in after
                else SameAt(after, fs, f))
            && (New(f) in after ==> New(f) in fs)
  {
    JarPathFiles(cwd, jar);
    SidecarsAreApart(f, Abs(cwd, jar));
    SidecarsAreApart(Abs(cwd, jar), f);
  }

  /** A jar that is listed and has a backup ends as the backup; every other is untouched. */
  lemma {:induction false} RestoredContent(cwd: File, fs: Files, jars: seq<Path>, f: File)
    requires JarPaths(jars) && IsJar(f)
    ensures var after := RestoredAll(cwd, fs, jars);
            && SameAt(after, fs, Bak(f))
            && (if Denoted(cwd, jars, f) && HasBackup(fs, f)
                then f in after && after[f] == fs[Bak(f)] && New(f) !in after
                else SameAt(after, fs, f))
  {
    if jars != [] {
      var init, jar := jars[..|jars| - 1], jars[|jars| - 1];
      assert jars == init + [jar];
      RestoredContent(cwd, fs, init, f);
      RestoredAt(cwd, RestoredAll(cwd, fs, init), jar, f);
      assert Denoted(cwd, jars, f) <==> Denoted(cwd, init, f) || Abs(cwd, jar) == f;
    }
  }

  /** A jar is reported exactly if it is listed and has a backup when the rollback begins, */
  lemma {:induction false} ReportedIff(cwd: File, fs: Files, jars: seq<Path>, jar: Path)
    requires JarPaths(jars)
    ensures jar in ReportOf(cwd, fs, jars) <==> jar in jars && HasBackup(fs, Abs(cwd, jar))
  {
    if jars != [] {
      var init, last := jars[..|jars| - 1], jars[|jars| - 1];
      assert jars == init + [last];
      ReportedIff(cwd, fs, init, jar);
      JarPathFiles(cwd, last);
      RestoredContent(cwd, fs, init, Abs(cwd, last));
    }
  }

  ghost predicate ListedInTurn(jars: seq<Path>, a: Path, b: Path) {
    exists k, l :: 0 <= k < l < |jars| && jars[k] == a && jars[l] == b
  }

  lemma {:induction false} ReportInTurn(cwd: File, fs: Files, jars: seq<Path>, i: nat, j: nat)
    requires i < j < |ReportOf(cwd, fs, jars)|
    ensures ListedInTurn(jars, ReportOf(cwd, fs, jars)[i], ReportOf(cwd, fs, jars)[j])
  {
    var n := |jars| - 1;
    var init := jars[..n];
    var early, report := ReportOf(cwd, fs, init), ReportOf(cwd, fs, jars);
    if j < |early| {
      ReportInTurn(cwd, fs, init, i, j);
      var k, l :| 0 <= k < l < n && init[k] == early[i] && init[l] == early[j];
      assert jars[k] == report[i] && jars[l] == report[j];
    } else {
      ReportIsListed(cwd, fs, init, early[i]);
      var k :| 0 <= k < n && init[k] == early[i];
      assert jars[k] == report[i] && jars[n] == report[j];
    }
  }

  lemma {:induction false} ReportIsListed(cwd: File, fs: Files, jars: seq<Path>, jar: Path)
    requires jar in ReportOf(cwd, fs, jars)
    ensures jar in jars
  {
    var init, last := jars[..|jars| - 1], jars[|jars| - 1];
    assert jars == init + [last];
    if jar != last {
      ReportIsListed(cwd, fs, init, jar);
    }
  }

  /** once each, and in the order of the candidates. */
  lemma RollbackReport(cwd: File, fs: Files, candidates: seq<Path>, jar: Path)
    requires JarPaths(candidates)
    ensures var report := ReportOf(cwd, fs, Dedup(candidates));
            && (jar in report <==> jar in candidates && HasBackup(fs, Abs(cwd, jar)))
            && (forall i, j :: 0 <= i < j < |report| ==>
                  report[i] != report[j] && ListedInTurn(Dedup(candidates), report[i], report[j]))
  {
    var report := ReportOf(cwd, fs, Dedup(candidates));
    DedupSpec(candidates);
    ReportedIff(cwd, fs, Dedup(candidates), jar);
    forall i, j | 0 <= i < j < |report|
      ensures report[i] != report[j] && ListedInTurn(Dedup(candidates), report[i], report[j])
    {
      ReportInTurn(cwd, fs, Dedup(candidates), i, j);
    }
  }

  /** After a successful update that wrote no destination twice, a rollback over candidates that
      include every destination gives each destination that had non-empty content exactly that
      content back. */
  lemma RollbackUndoesUpdate(cwd: File, fs: Files, steps: seq<Step>, jars: seq<Path>, f: File)
    requires Runs(fs, steps) && DistinctDsts(steps) && JarPaths(jars)
    requires f in Dsts(steps) && Denoted(cwd, jars, f)
    requires f in fs && fs[f] != ""
    ensures SameAt(RestoredAll(cwd, Run(fs, steps), jars), fs, f)
  {
    LogOfFirst(fs, steps, f);
    BackupContent(fs, steps, f);
    WrittenOnce(steps, f);
    OriginOfUnwritten(BeforeLastWrite(steps, f), f);
    RestoredContent(cwd, Run(fs, steps), jars, f);
  }

  /** What a rollback over candidates that include it leaves of any destination of a successful
      update: its old content if it had any; a stale backup, if there was one beside a destination
      that was not there; and otherwise the new jar. */
  lemma RollbackAfterUpdate(cwd: File, fs: Files, steps: seq<Step>, jars: seq<Path>, f: File)
    requires Runs(fs, steps) && DistinctDsts(steps) && JarPaths(jars)
    requires f in Dsts(steps) && Denoted(cwd, jars, f)
    ensures var after := RestoredAll(cwd, Run(fs, steps), jars);
            if f in fs && fs[f] != "" then SameAt(after, fs, f)
            else if f !in fs && HasBackup(fs, f) then f in after && after[f] == fs[Bak(f)]
            else SameAt(after, Run(fs, steps), f)
  {
    LogOfFirst(fs, steps, f);
    RestoredContent(cwd, Run(fs, steps), jars, f);
    if f in fs {
      BackupContent(fs, steps, f);
      WrittenOnce(steps, f);
      OriginOfUnwritten(BeforeLastWrite(steps, f), f);
    } else {
      NoBackupOfNew(fs, steps, f);
    }
  }

  /** In particular a destination that was not there, and had no usable backup beside it, keeps its
      new jar. */
  lemma RollbackKeepsNewJar(cwd: File, fs: Files, steps: seq<Step>, jars: seq<Path>, f: File)
    requires Runs(fs, steps) && DistinctDsts(steps) && JarPaths(jars)
    requires f in Dsts(steps) && f !in fs && !HasBackup(fs, f)
    ensures SameAt(RestoredAll(cwd, Run(fs, steps), jars), Run(fs, steps), f)
  {
    LogOfFirst(fs, steps, f);
    RestoredContent(cwd, Run(fs, steps), jars, f);
    NoBackupOfNew(fs, steps, f);
  }

  lemma {:induction false} NoBackupOfNew(fs: Files, steps: seq<Step>, f: File)
    requires Runs(fs, steps) && DistinctDsts(steps) && IsJar(f) && f !in fs
    ensures SameAt(Run(fs, steps), fs, Bak(f))
  {
    if steps != [] {
      var init, last := steps[..|steps| - 1], steps[|steps| - 1];
      assert steps == init + [last];
      NoBackupOfNew(fs, init, f);
      ReplacedAt(Run(fs, init), last, f);
      RunContent(fs, init, f);
    }
  }

  /** A second rollback over the same files changes nothing. */
  lemma {:induction false} RollbackTwice(cwd: File, fs: Files, jars: seq<Path>, again: seq<Path>)
    requires JarPaths(jars) && JarPaths(again)
    requires forall p :: p in again ==> Denoted(cwd, jars, Abs(cwd, p))
    ensures var once := RestoredAll(cwd, fs, jars); RestoredAll(cwd, once, again) == once
    decreases |again|
  {
    if again != [] {
      var init, jar := again[..|again| - 1], again[|again| - 1];
      RollbackTwice(cwd, fs, jars, init);
      assert jar in again;
      JarPathFiles(cwd, jar);
      RestoredContent(cwd, fs, jars, Abs(cwd, jar));
    }
  }

  // ----- From the update command to the rollback command -----

  predicate InDir(f: File, dir: File) {
    |f| == |dir| + 1 && dir <= f && IsJarName(f[|dir|])
  }

  lemma InDirIff(f: File, dir: File)
    ensures InDir(f, dir) <==> exists version: string :: f == dir + ["stx-java-proxy-" + version + ".jar"]
  {
    if InDir(f, dir) {
      JarNameIff(f[|dir|]);
      assert f == dir + [f[|dir|]];
    }
    if version: string :| f == dir + ["stx-java-proxy-" + version + ".jar"] {
      JarNameIff("stx-java-proxy-" + version + ".jar");
    }
  }

  /** The proxy jars of the target directory, in any order, then the running jars. */
  ghost predicate RollbackCandidates(fs: Files, targetDir: Option<File>, running: seq<Path>, candidates: seq<Path>) {
    exists matches :: candidates == matches + running && Globbed(fs, targetDir, matches)
  }

  ghost predicate Globbed(fs: Files, targetDir: Option<File>, matches: seq<Path>) {
    if targetDir.None? then matches == [] else Matches(fs, targetDir.value, matches)
  }

  ghost predicate Matches(fs: Files, dir: File, matches: seq<Path>) {
    && (forall f :: f in fs && InDir(f, dir) ==> PathOf(f) in matches)
    && (forall p :: p in matches ==> exists f :: f in fs && InDir(f, dir) && p == PathOf(f))
  }

  /** The files of a host are named by clean absolute paths. */
  ghost predicate CleanFiles(fs: Files) {
    forall f :: f in fs ==> CleanFile(f)
  }

  lemma CandidatesAreJars(fs: Files, targetDir: Option<File>, running: seq<Path>, candidates: seq<Path>)
    requires RollbackCandidates(fs, targetDir, running, candidates) && JarPaths(running)
    ensures JarPaths(candidates)
  {
    var matches :| candidates == matches + running && Globbed(fs, targetDir, matches);
    forall p | p in matches ensures IsJarPath(p) {
      var f :| f in fs && InDir(f, targetDir.value) && p == PathOf(f);
      JarNameIsName(f[|f| - 1]);
    }
  }

  /** A jar of the target directory that is there is a candidate. */
  lemma JarInDirIsCandidate(cwd: File, fs: Files, dir: File, running: seq<Path>, candidates: seq<Path>, f: File)
    requires RollbackCandidates(fs, Some(dir), running, candidates)
    requires f in fs && CleanFile(f) && InDir(f, dir)
    ensures Denoted(cwd, candidates, f)
  {
    AbsOfPathOf(cwd, f);
    assert PathOf(f) in candidates;
  }

  /** Every destination of an update that is there afterwards is a candidate of the rollback. */
  lemma DestinationIsCandidate(cwd: File, fs: Files, targetDir: Option<File>, running: seq<Path>, base: string,
                               candidates: seq<Path>, f: File)
    requires IsJarName(base) && (targetDir.Some? ==> CleanFile(targetDir.value))
    requires RollbackCandidates(fs, targetDir, running, candidates)
    requires f in Destinations(cwd, targetDir, base, running) && f in fs
    ensures Denoted(cwd, candidates, f)
  {
    DestinationsExact(cwd, targetDir, base, running, f);
    if targetDir.Some? && f == targetDir.value + [base] {
      JarInDirIsCandidate(cwd, fs, targetDir.value, running, candidates, f);
    } else {
      var jar :| jar in running && Base(jar) == base && Abs(cwd, jar) == f;
      assert jar in candidates;
    }
  }

  lemma DenotedByDedup(cwd: File, candidates: seq<Path>, f: File)
    ensures Denoted(cwd, Dedup(candidates), f) <==> Denoted(cwd, candidates, f)
    ensures JarPaths(candidates) ==> JarPaths(Dedup(candidates))
  {
    DedupSpec(candidates);
  }

  /** A successful update followed by a rollback, over the same target directory and running
      jars: a destination that had content before the update has it again. */
  lemma UpdateThenRollback(cwd: File, fs: Files, targetDir: Option<File>, running: seq<Path>, jars: seq<Path>,
                           candidates: seq<Path>, f: File)
    requires (targetDir.Some? ==> CleanFile(targetDir.value)) && JarPaths(running)
    requires DistinctBases(jars) && JarNames(jars)
    requires var plan := Plan(cwd, targetDir, running, jars);
             Runs(fs, plan) && f in Dsts(plan) && RollbackCandidates(Run(fs, plan), targetDir, running, candidates)
    requires f in fs && fs[f] != ""
    ensures SameAt(RestoredAll(cwd, Run(fs, Plan(cwd, targetDir, running, jars)), Dedup(candidates)), fs, f)
  {
    var plan := Plan(cwd, targetDir, running, jars);
    PlanIsDistinct(cwd, targetDir, running, jars);
    var k :| 0 <= k < |plan| && plan[k].dst == f;
    var i := PlanStep(cwd, targetDir, running, jars, k);
    LogOfFirst(fs, plan, f);
    RunContent(fs, plan, f);
    DestinationIsCandidate(cwd, Run(fs, plan), targetDir, running, Base(jars[i]), candidates, f);
    CandidatesAreJars(Run(fs, plan), targetDir, running, candidates);
    DenotedByDedup(cwd, candidates, f);
    RollbackUndoesUpdate(cwd, fs, plan, Dedup(candidates), f);
  }

  /** A failed update that was undone leaves its own backups behind: a rollback after it restores
      each destination to what it held before that update, */
  lemma RollbackAfterUndo(cwd: File, fs: Files, steps: seq<Step>, jars: seq<Path>, f: File)
    requires Runs(fs, steps) && DistinctDsts(steps) && JarPaths(jars)
    requires f in Dsts(steps) && f in fs
    ensures SameAt(RestoredAll(cwd, UndoneAll(Run(fs, steps), Log(fs, steps)), jars), fs, f)
  {
    var now, log := Run(fs, steps), Log(fs, steps);
    LogOfFirst(fs, steps, f);
    RunsWritesJars(fs, steps);
    forall i | 0 <= i < |log| ensures Bak(f) != New(log[i].dst) && Bak(f) != log[i].dst && f != New(log[i].dst) {
      SidecarsAreApart(f, log[i].dst);
      SidecarsAreApart(log[i].dst, f);
    }
    UndoContent(now, log, Bak(f));
    BackupContent(fs, steps, f);
    WrittenOnce(steps, f);
    OriginOfUnwritten(BeforeLastWrite(steps, f), f);
    UndoneInPartAt(fs, steps, now, log, f);
    RestoredContent(cwd, UndoneAll(now, log), jars, f);
  }

  /** and no longer to what it held before the successful update that came first. After a second
      update that failed and was undone, however its sidecars were left, a rollback gives a
      destination of the first one its oldest content exactly if the second had not written it, or
      not changed it. The destination at which the second failed is excepted: its backup may be lost. */
  lemma UndoneUpdateSpoilsRollbackIff(cwd: File, fs: Files, first: seq<Step>, between: Files, second: seq<Step>,
                                     after: Files, jars: seq<Path>, f: File)
    requires Runs(fs, first) && DistinctDsts(first) && f in Dsts(first) && between == Run(fs, first)
    requires Runs(between, second) && DistinctDsts(second)
    requires SameAt(after, between, f) && SameAt(after, Run(between, second), Bak(f))
    requires JarPaths(jars) && Denoted(cwd, jars, f)
    requires f in fs && fs[f] != ""
    ensures SameAt(RestoredAll(cwd, after, jars), fs, f) <==> f !in Dsts(second) || SameAt(between, fs, f)
  {
    assert IsJar(f) && f in between by { LogOfFirst(fs, first, f); RunContent(fs, first, f); }
    assert Bak(f) in between && between[Bak(f)] == fs[f] by { OldestBackup(fs, first, f); }
    RestoredContent(cwd, after, jars, f);
    if f in Dsts(second) {
      OldestBackup(between, second, f);
    } else {
      BackupContent(between, second, f);
    }
  }

  /** After distinct writes a backup holds what its jar held at first. */
  lemma OldestBackup(fs: Files, steps: seq<Step>, f: File)
    requires Runs(fs, steps) && DistinctDsts(steps) && f in Dsts(steps) && f in fs
    ensures Bak(f) in Run(fs, steps) && Run(fs, steps)[Bak(f)] == fs[f]
  {
    LogOfFirst(fs, steps, f);
    BackupContent(fs, steps, f);
    WrittenOnce(steps, f);
    OriginOfUnwritten(BeforeLastWrite(steps, f), f);
  }

  /** The destination at which the second update failed: what its backup holds decides. */
  lemma RollbackWhereItFailedIff(cwd: File, fs: Files, between: Files, after: Files, jars: seq<Path>, f: File)
    requires IsJar(f) && SameAt(after, between, f) && JarPaths(jars) && Denoted(cwd, jars, f) && f in fs
    ensures SameAt(RestoredAll(cwd, after, jars), fs, f) <==>
              if HasBackup(after, f) then after[Bak(f)] == fs[f] else SameAt(between, fs, f)
  {
    RestoredContent(cwd, after, jars, f);
  }

  /** A second rollback command, over the files that the first one left, changes nothing. */
  lemma SecondRollbackIsIdle(cwd: File, fs: Files, targetDir: Option<File>, running: seq<Path>,
                             first: seq<Path>, second: seq<Path>)
    requires JarPaths(running) && CleanFiles(fs)
    requires RollbackCandidates(fs, targetDir, running, first)
    requires RollbackCandidates(RestoredAll(cwd, fs, Dedup(first)), targetDir, running, second)
    ensures var once := RestoredAll(cwd, fs, Dedup(first)); RestoredAll(cwd, once, Dedup(second)) == once
  {
    var once := RestoredAll(cwd, fs, Dedup(first));
    CandidatesAreJars(fs, targetDir, running, first);
    CandidatesAreJars(once, targetDir, running, second);
    DedupSpec(first);
    DedupSpec(second);
    forall p | p in second ensures Denoted(cwd, Dedup(first), Abs(cwd, p)) {
      var matches :| second == matches + running && Globbed(once, targetDir, matches);
      DenotedByDedup(cwd, first, Abs(cwd, p));
      if p in running {
        assert p in first;
      } else {
        var f :| f in once && InDir(f, targetDir.value) && p == PathOf(f);
        CandidateAgain(cwd, fs, targetDir.value, running, first, f);
      }
    }
    RollbackTwice(cwd, fs, Dedup(first), Dedup(second));
  }

  /** A jar found in the target directory after a rollback was a candidate of that rollback. */
  lemma CandidateAgain(cwd: File, fs: Files, dir: File, running: seq<Path>, first: seq<Path>, f: File)
    requires JarPaths(running) && CleanFiles(fs)
    requires RollbackCandidates(fs, Some(dir), running, first)
    requires f in RestoredAll(cwd, fs, Dedup(first)) && InDir(f, dir)
    ensures Denoted(cwd, Dedup(first), Abs(cwd, PathOf(f)))
  {
    CandidatesAreJars(fs, Some(dir), running, first);
    DenotedByDedup(cwd, first, f);
    RestoredContent(cwd, fs, Dedup(first), f);
    if f in fs {
      JarInDirIsCandidate(cwd, fs, dir, running, first, f);
      AbsOfPathOf(cwd, f);
    } else {
      var p :| p in Dedup(first) && Abs(cwd, p) == f;
      AbsOfPathOf(cwd, f);
    }
  }
}
