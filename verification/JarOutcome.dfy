/** What the update handler keeps track of while it works, and what a failure leaves. */
module JarOutcome {
  import opened Options
  import opened Paths
  import opened JarChanges

  ghost predicate JarLog(changes: seq<Change>) {
    forall i :: 0 <= i < |changes| ==> IsJar(changes[i].dst) && CleanFile(changes[i].dst)
  }

  ghost predicate Recorded(start: Files, steps: seq<Step>, changes: seq<Change>) {
    Runs(start, steps) && changes == Log(start, steps) && JarLog(changes)
  }

  /** The sidecars of the destination whose replacement failed, if one did. */
  ghost function Broken(failed: Option<File>): set<File> {
    if failed.Some? then {Bak(failed.value), New(failed.value)} else {}
  }

  /** The steps done are a prefix of the plan, and the failed destination comes next in it. */
  ghost predicate Within(plan: seq<Step>, steps: seq<Step>, failed: Option<File>) {
    steps <= plan && (failed.Some? ==> |steps| < |plan| && plan[|steps|].dst == failed.value)
  }

  lemma RecordedOfNext(start: Files, steps: seq<Step>, changes: seq<Change>, s: Step)
    requires Recorded(start, steps, changes)
    requires IsJar(s.src) && IsJar(s.dst) && CleanFile(s.dst) && s.src in Run(start, steps)
    ensures Recorded(start, steps + [s], changes + [Change(s.dst, s.dst in Run(start, steps))])
    ensures Run(start, steps + [s]) == Replaced(Run(start, steps), s)
  {
    RunOfSnoc(start, steps, s);
  }

  /** Undoing entries of the log takes states that agree outside its staging copies to such states. */
  lemma UndoneAgain(a: Files, b: Files, changes: seq<Change>, applied: seq<Change>)
    requires JarLog(changes) && forall c :: c in applied ==> c in changes
    requires Agree(a, b, News(changes))
    ensures Agree(UndoneAll(a, applied), UndoneAll(b, applied), News(changes))
  {
    forall c | c in applied ensures Bak(c.dst) !in News(changes) && c.dst in ChangedFiles(changes) {
      assert c in changes;
      forall f | f in ChangedFiles(changes) ensures Bak(c.dst) != New(f) {
        SidecarsAreApart(c.dst, f);
      }
    }
    UndoKeepsAgreement(a, b, applied, News(changes));
  }

  /** Every entry that needs a backup has one. */
  ghost predicate Backed(fs: Files, changes: seq<Change>) {
    forall c :: c in changes && c.backedUp ==> Bak(c.dst) in fs
  }

  /** How many entries have not been undone. */
  ghost function Missed(changes: seq<Change>, applied: seq<Change>): nat {
    if changes == [] then 0 else Missed(changes[1..], applied) + if changes[0] in applied then 0 else 1
  }

  /** Undoing one more entry, or adding one to those that had to be undone. */
  lemma {:induction false} MissedNoMore(changes: seq<Change>, applied: seq<Change>, c: Change)
    ensures Missed(changes, [c] + applied) <= Missed(changes, applied)
  {
    if changes != [] {
      MissedNoMore(changes[1..], applied, c);
      assert changes[0] in applied ==> changes[0] in [c] + applied;
    }
  }

  lemma MissedOfFront(changes: seq<Change>, i: nat, applied: seq<Change>)
    requires i < |changes|
    ensures Missed(changes[i..], [changes[i]] + applied) <= Missed(changes[i + 1..], applied)
    ensures Missed(changes[i..], applied) <= Missed(changes[i + 1..], applied) + 1
  {
    assert changes[i..][1..] == changes[i + 1..] && changes[i..][0] == changes[i];
    assert changes[i] in [changes[i]] + applied;
    MissedNoMore(changes[i + 1..], applied, changes[i]);
  }

  /** A backup is still there after some entries have been undone. */
  lemma BackupStays(base: Files, now: Files, changes: seq<Change>, applied: seq<Change>, c: Change)
    requires JarLog(changes) && c in changes && forall c' :: c' in applied ==> c' in changes
    requires Agree(now, UndoneAll(base, applied), News(changes))
    ensures SameAt(now, base, Bak(c.dst))
  {
    forall c' | c' in applied ensures IsJar(c'.dst) {
      assert c' in changes;
    }
    UndoKeepsBackup(base, applied, c.dst);
    forall f | f in ChangedFiles(changes) ensures Bak(c.dst) != New(f) {
      SidecarsAreApart(c.dst, f);
    }
    assert Bak(c.dst) !in News(changes);
  }

  /** One more entry undone, in a state that agrees with undoing the entries after it. */
  lemma UndoneFront(now: Files, base: Files, changes: seq<Change>, c: Change, applied: seq<Change>)
    requires JarLog(changes) && c in changes
    requires Agree(now, UndoneAll(base, applied), News(changes))
    ensures Agree(Undone(now, c), UndoneAll(base, [c] + applied), News(changes))
  {
    UndoneAgain(now, UndoneAll(base, applied), changes, [c]);
    UndoneOfConcat(base, [c], applied);
    assert [c][..0] == [];
    assert UndoneAll(now, [c]) == Undone(now, c);
  }

  lemma SourceStays(fs: Files, s: Step)
    requires IsJar(s.src) && IsJar(s.dst) && s.src in fs
    ensures s.src in Replaced(fs, s)
  {
    ReplacedAt(fs, s, s.src);
  }

  // ----- What a failed or undone update leaves -----

  lemma DstsOfPrefix(steps: seq<Step>, plan: seq<Step>)
    requires steps <= plan
    ensures Dsts(steps) <= Dsts(plan) && Sidecars(Dsts(steps)) <= Sidecars(Dsts(plan))
    ensures DistinctDsts(plan) ==> DistinctDsts(steps)
  {
    forall f | f in Dsts(steps) ensures f in Dsts(plan) {
      var i :| 0 <= i < |steps| && steps[i].dst == f;
      assert plan[i].dst == f;
    }
  }

  lemma FailedInPlan(plan: seq<Step>, steps: seq<Step>, failed: Option<File>)
    requires Within(plan, steps, failed)
    ensures Broken(failed) <= Sidecars(Dsts(plan))
    ensures DistinctDsts(plan) && failed.Some? ==> failed.value !in Dsts(steps)
  {
    if failed.Some? {
      assert plan[|steps|].dst == failed.value;
      assert failed.value in Dsts(plan);
    }
  }

  lemma JarIsNoSidecar(f: File, jars: set<File>)
    requires IsJar(f)
    ensures f !in Sidecars(jars)
  {
    forall g | g in jars ensures f != Bak(g) && f != New(g) {
      SidecarsAreApart(f, g);
    }
  }

  /** The failed destination's sidecars are not the backups of the others. */
  lemma BackupNotBroken(f: File, failed: Option<File>)
    requires IsJar(f) && (failed.Some? ==> IsJar(failed.value) && failed.value != f)
    ensures Bak(f) !in Broken(failed)
  {
    if failed.Some? {
      SidecarsAreApart(f, failed.value);
      if Bak(f) == Bak(failed.value) { SuffixInjective(f, failed.value, ".bak"); }
    }
  }

  /** An update that recorded some steps, may have failed at one more destination, and then
      undid some entries of its log, possibly all of them and possibly several times. */
  ghost predicate Attempted(start: Files, steps: seq<Step>, changes: seq<Change>, plan: seq<Step>, failed: Option<File>,
                            now: Files, applied: seq<Change>, after: Files) {
    && Recorded(start, steps, changes)
    && Within(plan, steps, failed)
    && (failed.Some? ==> IsJar(failed.value))
    && Agree(now, Run(start, steps), Broken(failed))
    && (forall c :: c in applied ==> c in changes)
    && Agree(after, UndoneAll(now, applied), News(changes))
  }

  /** A file that no step wrote and that is no sidecar of the plan is as it was. */
  lemma AfterUndoElsewhere(start: Files, steps: seq<Step>, changes: seq<Change>, plan: seq<Step>, failed: Option<File>,
                           now: Files, applied: seq<Change>, after: Files, f: File)
    requires Attempted(start, steps, changes, plan, failed, now, applied, after)
    requires f !in Sidecars(Dsts(plan)) && f !in Dsts(steps)
    ensures SameAt(after, start, f)
  {
    DstsOfPrefix(steps, plan);
    FailedInPlan(plan, steps, failed);
    ChangedIsDsts(start, steps);
    assert SameAt(now, Run(start, steps), f) && SameAt(after, UndoneAll(now, applied), f);
    RunFrame(start, steps, f);
    forall c | c in applied ensures IsJar(c.dst) && c.dst in Dsts(steps) && f != New(c.dst) {
      assert c in changes && c.dst in ChangedFiles(changes);
    }
    UndoContent(now, applied, f);
  }

  /** When the undo starts, a destination and its backup are as the steps left them. */
  lemma BeforeUndoAt(start: Files, steps: seq<Step>, changes: seq<Change>, plan: seq<Step>, failed: Option<File>,
                     now: Files, applied: seq<Change>, after: Files, f: File)
    requires Attempted(start, steps, changes, plan, failed, now, applied, after) && DistinctDsts(plan)
    requires f !in Sidecars(Dsts(plan)) && f in Dsts(steps)
    ensures DistinctDsts(steps) && f !in Sidecars(Dsts(steps))
    ensures SameAt(now, Run(start, steps), Bak(f)) && SameAt(now, Run(start, steps), f)
    ensures SameAt(after, UndoneAll(now, applied), f)
  {
    DstsOfPrefix(steps, plan);
    FailedInPlan(plan, steps, failed);
    ChangedIsDsts(start, steps);
    RunsWritesJars(start, steps);
    BackupNotBroken(f, failed);
    assert f !in News(changes);
  }

  /** When the plan writes no destination twice, each holds what it held or what was written. */
  lemma AfterUndoAt(start: Files, steps: seq<Step>, changes: seq<Change>, plan: seq<Step>, failed: Option<File>,
                    now: Files, applied: seq<Change>, after: Files, f: File)
    requires Attempted(start, steps, changes, plan, failed, now, applied, after) && DistinctDsts(plan)
    requires f !in Sidecars(Dsts(plan)) && f in Dsts(steps)
    ensures SameAt(after, start, f) || SameAt(after, Run(start, steps), f)
  {
    BeforeUndoAt(start, steps, changes, plan, failed, now, applied, after, f);
    UndoneInPart(start, steps, now, applied, f);
  }

  /** It holds what it held if its entry was undone. */
  lemma AfterEntryAt(start: Files, steps: seq<Step>, changes: seq<Change>, plan: seq<Step>, failed: Option<File>,
                     now: Files, applied: seq<Change>, after: Files, f: File)
    requires Attempted(start, steps, changes, plan, failed, now, applied, after) && DistinctDsts(plan)
    requires f !in Sidecars(Dsts(plan)) && f in ChangedFiles(applied)
    ensures SameAt(after, start, f)
  {
    var c := FirstChange(applied, f);
    assert c in changes && f in ChangedFiles(changes);
    ChangedIsDsts(start, steps);
    BeforeUndoAt(start, steps, changes, plan, failed, now, applied, after, f);
    UndoneInPartAt(start, steps, now, applied, f);
  }

  /** And it holds what it held if one undo went through, whatever others did before and after. */
  lemma AfterFullUndoAt(start: Files, steps: seq<Step>, changes: seq<Change>, plan: seq<Step>, failed: Option<File>,
                        now: Files, late: seq<Change>, early: seq<Change>, after: Files, f: File)
    requires Attempted(start, steps, changes, plan, failed, now, late + (changes + early), after) && DistinctDsts(plan)
    requires f !in Sidecars(Dsts(plan)) && f in Dsts(steps)
    ensures SameAt(after, start, f)
  {
    var applied := late + (changes + early);
    var before, restored := UndoneAll(now, early), UndoneAll(now, changes + early);
    BeforeUndoAt(start, steps, changes, plan, failed, now, applied, after, f);
    forall c | c in early || c in late ensures c in changes && IsJar(c.dst) {
      assert c in applied;
    }
    UndoneOfConcat(now, changes, early);
    UndoKeepsBackup(now, early, f);
    UndoRestoresAll(start, steps, before, f);
    UndoKeepsBackup(before, changes, f);
    UndoneOfConcat(now, late, changes + early);
    RestoredStays(start, steps, restored, late, f);
  }

  /** A full undo, whatever destinations are written twice: exactly when a destination is as it was.
      The one whose replacement failed may have lost its backup. */
  lemma AfterFullUndoIff(start: Files, steps: seq<Step>, changes: seq<Change>, plan: seq<Step>, failed: Option<File>,
                         now: Files, after: Files, f: File)
    requires Attempted(start, steps, changes, plan, failed, now, changes, after)
    requires f in Dsts(steps) && failed != Some(f)
    ensures SameAt(after, start, f) <==> BackupIsFirst(start, steps, f)
  {
    LogOfFirst(start, steps, f);
    assert SameAt(now, Run(start, steps), Bak(f)) by { BackupNotBroken(f, failed); }
    forall g | g in ChangedFiles(changes) ensures f != New(g) {
      SidecarsAreApart(f, g);
    }
    assert f !in News(changes);
    assert SameAt(after, UndoneAll(now, changes), f);
    UndoRestoresIff(start, steps, now, f);
  }

  /** The log can be undone, unless it has an entry of the destination whose replacement failed. */
  lemma LogStaysBacked(start: Files, steps: seq<Step>, changes: seq<Change>, failed: Option<File>, now: Files)
    requires Recorded(start, steps, changes) && (failed.Some? ==> IsJar(failed.value) && failed.value !in Dsts(steps))
    requires Agree(now, Run(start, steps), Broken(failed))
    ensures Backed(now, changes)
  {
    forall c | c in changes && c.backedUp ensures Bak(c.dst) in now {
      LogIsBacked(start, steps, c);
      assert c.dst in ChangedFiles(changes);
      ChangedIsDsts(start, steps);
      BackupNotBroken(c.dst, failed);
      assert SameAt(now, Run(start, steps), Bak(c.dst));
    }
  }

  /** Among the entries undone, the whole log at one go. */
  ghost predicate InFull(applied: seq<Change>, changes: seq<Change>) {
    exists late, early :: applied == late + (changes + early)
  }

  lemma InFullNow(changes: seq<Change>, earlier: seq<Change>)
    ensures InFull(changes + earlier, changes)
  {
    assert changes + earlier == [] + (changes + earlier);
  }

  lemma InFullStays(changes: seq<Change>, earlier: seq<Change>, now: seq<Change>)
    requires InFull(earlier, changes)
    ensures InFull(now + earlier, changes)
  {
    var late, early :| earlier == late + (changes + early);
    assert now + earlier == (now + late) + (changes + early);
  }

  lemma UndoKeepsBackup(now: Files, early: seq<Change>, f: File)
    requires JarChangesOnly(early)
    ensures SameAt(UndoneAll(now, early), now, Bak(f))
  {
    forall c | c in early ensures Bak(f) != New(c.dst) && Bak(f) != c.dst {
      SidecarsAreApart(f, c.dst);
      SidecarsAreApart(c.dst, f);
    }
    UndoContent(now, early, Bak(f));
  }

  // ----- All or nothing -----

  /** Each destination holds what it held before or what the steps wrote. */
  ghost predicate OldOrNew(start: Files, steps: seq<Step>, after: Files, scratch: set<File>) {
    forall f :: f in Dsts(steps) && f !in scratch ==> SameAt(after, start, f) || SameAt(after, Run(start, steps), f)
  }

  /** No undo touches a backup; only that of the destination that failed may have been lost. */
  ghost predicate BackupsAsRun(start: Files, steps: seq<Step>, failed: Option<File>, after: Files) {
    forall f :: IsJar(f) && failed != Some(f) ==> SameAt(after, Run(start, steps), Bak(f))
  }

  lemma AfterUndoBackup(start: Files, steps: seq<Step>, changes: seq<Change>, plan: seq<Step>, failed: Option<File>,
                        now: Files, applied: seq<Change>, after: Files, f: File)
    requires Attempted(start, steps, changes, plan, failed, now, applied, after)
    requires IsJar(f) && failed != Some(f)
    ensures SameAt(after, Run(start, steps), Bak(f))
  {
    BackupNotBroken(f, failed);
    forall c | c in applied ensures IsJar(c.dst) {
      assert c in changes;
    }
    UndoKeepsBackup(now, applied, f);
    forall g | g in ChangedFiles(changes) ensures Bak(f) != New(g) {
      SidecarsAreApart(f, g);
    }
    assert Bak(f) !in News(changes);
  }

  /** Which destinations a full undo restores, also when base names repeat. */
  ghost predicate UndoneExactly(start: Files, steps: seq<Step>, failed: Option<File>, after: Files) {
    forall f :: f in Dsts(steps) && failed != Some(f) ==> (SameAt(after, start, f) <==> BackupIsFirst(start, steps, f))
  }

  ghost predicate UndoneAreOld(start: Files, applied: seq<Change>, after: Files, scratch: set<File>) {
    forall f :: f in ChangedFiles(applied) && f !in scratch ==> SameAt(after, start, f)
  }

  /** Of a plan that writes no destination twice: once the whole log has been undone every file but
      the sidecars is as it was, and otherwise each destination is old or new, and old if its entry
      was undone. */
  ghost predicate AllOrNothing(start: Files, steps: seq<Step>, changes: seq<Change>, whole: seq<Step>,
                               failed: Option<File>, applied: seq<Change>, after: Files) {
    var scratch := Sidecars(Dsts(whole));
    && DistinctDsts(steps)
    && (InFull(applied, changes) ==> Agree(after, start, scratch))
    && UndoneAreOld(start, applied, after, scratch)
    && OldOrNew(start, steps, after, scratch)
    && (failed.Some? ==> failed.value !in Dsts(steps))
  }

  lemma AttemptOutcome(start: Files, steps: seq<Step>, changes: seq<Change>, plan: seq<Step>, whole: seq<Step>,
                       failed: Option<File>, now: Files, applied: seq<Change>, after: Files)
    requires Attempted(start, steps, changes, plan, failed, now, applied, after) && plan <= whole
    ensures steps <= whole && Agree(after, start, Dsts(whole) + Sidecars(Dsts(whole)))
    ensures applied == changes ==> UndoneExactly(start, steps, failed, after)
    ensures BackupsAsRun(start, steps, failed, after)
  {
    forall f | IsJar(f) && failed != Some(f) ensures SameAt(after, Run(start, steps), Bak(f)) {
      AfterUndoBackup(start, steps, changes, plan, failed, now, applied, after, f);
    }
    DstsOfPrefix(plan, whole);
    DstsOfPrefix(steps, plan);
    forall f | f !in Dsts(whole) + Sidecars(Dsts(whole)) ensures SameAt(after, start, f) {
      AfterUndoElsewhere(start, steps, changes, plan, failed, now, applied, after, f);
    }
    if applied == changes {
      forall f | f in Dsts(steps) && failed != Some(f)
        ensures SameAt(after, start, f) <==> BackupIsFirst(start, steps, f)
      {
        AfterFullUndoIff(start, steps, changes, plan, failed, now, after, f);
      }
    }
  }

  lemma DistinctOutcome(start: Files, steps: seq<Step>, changes: seq<Change>, plan: seq<Step>, whole: seq<Step>,
                        failed: Option<File>, now: Files, applied: seq<Change>, after: Files)
    requires Attempted(start, steps, changes, plan, failed, now, applied, after) && plan <= whole && DistinctDsts(plan)
    ensures AllOrNothing(start, steps, changes, whole, failed, applied, after)
  {
    var scratch := Sidecars(Dsts(whole));
    DstsOfPrefix(plan, whole);
    DstsOfPrefix(steps, plan);
    FailedInPlan(plan, steps, failed);
    forall f | f in ChangedFiles(applied) && f !in scratch ensures SameAt(after, start, f) {
      AfterEntryAt(start, steps, changes, plan, failed, now, applied, after, f);
    }
    forall f | f in Dsts(steps) && f !in scratch
      ensures SameAt(after, start, f) || SameAt(after, Run(start, steps), f)
    {
      AfterUndoAt(start, steps, changes, plan, failed, now, applied, after, f);
    }
    if late, early :| applied == late + (changes + early) {
      forall f | f !in scratch ensures SameAt(after, start, f) {
        if f in Dsts(steps) {
          AfterFullUndoAt(start, steps, changes, plan, failed, now, late, early, after, f);
        } else {
          AfterUndoElsewhere(start, steps, changes, plan, failed, now, applied, after, f);
        }
      }
    }
  }
}
