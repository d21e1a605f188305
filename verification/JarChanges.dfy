/** What replacing, undoing and rolling back proxy jars do to the files of a host.

    These functions say what each step leaves when it succeeds; the handlers of
    JarHandlers are proved against them, and the laws of the transaction are proved here. */
module JarChanges {
  import opened Text
  import opened Paths

  type Content = string
  type Files = map<File, Content>

  /** The backup next to a file, and the staging copy that a replacement renames over it. */
  function Bak(f: File): File { SuffixFile(f, ".bak") }
  function New(f: File): File { SuffixFile(f, ".new") }

  predicate IsJar(f: File) {
    f != [] && HasSuffix(f[|f| - 1], ".jar")
  }

  function Sidecars(jars: set<File>): set<File> {
    (set f | f in jars :: Bak(f)) + (set f | f in jars :: New(f))
  }

  function LastChar(f: File): char {
    if f == [] || f[|f| - 1] == "" then ' ' else f[|f| - 1][|f[|f| - 1]| - 1]
  }

  lemma EndOfSuffix(f: File, suffix: string)
    requires suffix != ""
    ensures SuffixFile(f, suffix) != [] && LastChar(SuffixFile(f, suffix)) == suffix[|suffix| - 1]
  {
  }

  /** Backups and staging copies of jars are neither jars nor one another. */
  lemma SidecarsAreApart(a: File, b: File)
    ensures Bak(a) != New(b)
    ensures IsJar(a) ==> a != Bak(b) && a != New(b)
  {
    EndOfSuffix(a, ".bak");
    EndOfSuffix(b, ".bak");
    EndOfSuffix(b, ".new");
    if IsJar(a) {
      var name := a[|a| - 1];
      assert name[|name| - 4..][3] == 'r';
    }
  }

  lemma SuffixInjective(a: File, b: File, suffix: string)
    requires a != [] && b != [] && SuffixFile(a, suffix) == SuffixFile(b, suffix)
    ensures a == b
  {
    var x, y := SuffixFile(a, suffix), SuffixFile(b, suffix);
    assert |x| == |a| && |y| == |b|;
    assert x[..|a| - 1] == a[..|a| - 1] && y[..|b| - 1] == b[..|b| - 1];
    assert a[|a| - 1] + suffix == b[|b| - 1] + suffix;
    assert a[|a| - 1] == (a[|a| - 1] + suffix)[..|a[|a| - 1]|];
    assert b[|b| - 1] == (b[|b| - 1] + suffix)[..|b[|b| - 1]|];
  }

  // ----- Replacing -----

  /** One jar written to one destination. */
  datatype Step = Step(src: File, dst: File)

  function Dsts(steps: seq<Step>): set<File> {
    set i | 0 <= i < |steps| :: steps[i].dst
  }

  function Replaced(fs: Files, s: Step): Files {
    var saved := if s.dst in fs then fs[Bak(s.dst) := fs[s.dst]] else fs;
    if s.src in saved then (saved - {New(s.dst)})[s.dst := saved[s.src]] else saved
  }

  /** One replacement, seen from one jar and from the backup of one jar. */
  lemma ReplacedAt(fs: Files, s: Step, f: File)
    requires IsJar(f) && IsJar(s.dst) && IsJar(s.src) && s.src in fs
    ensures var after := Replaced(fs, s);
            && (f in after <==> f in fs || f == s.dst)
            && (f in after ==> after[f] == if f == s.dst then fs[s.src] else fs[f])
            && (Bak(f) in after <==> Bak(f) in fs || (f == s.dst && f in fs))
            && (Bak(f) in after ==> after[Bak(f)] == if f == s.dst && f in fs then fs[f] else fs[Bak(f)])
  {
    SidecarsAreApart(f, s.dst);
    SidecarsAreApart(s.src, s.dst);
    SidecarsAreApart(s.dst, f);
    if Bak(f) == Bak(s.dst) { SuffixInjective(f, s.dst, ".bak"); }
  }

  function Run(fs: Files, steps: seq<Step>): Files {
    if steps == [] then fs
    else Replaced(Run(fs, steps[..|steps| - 1]), steps[|steps| - 1])
  }

  /** Steps between jars, each with its source there when its turn comes. */
  ghost predicate Runs(fs: Files, steps: seq<Step>) {
    steps == [] ||
    var init, last := steps[..|steps| - 1], steps[|steps| - 1];
    Runs(fs, init) && IsJar(last.src) && IsJar(last.dst) && last.src in Run(fs, init)
  }

  lemma RunOfSnoc(fs: Files, steps: seq<Step>, s: Step)
    requires Runs(fs, steps) && IsJar(s.src) && IsJar(s.dst) && s.src in Run(fs, steps)
    ensures Runs(fs, steps + [s])
    ensures Run(fs, steps + [s]) == Replaced(Run(fs, steps), s)
    ensures Log(fs, steps + [s]) == Log(fs, steps) + [Change(s.dst, s.dst in Run(fs, steps))]
  {
    assert (steps + [s])[..|steps|] == steps;
  }

  /** Which original file's content a file holds after the steps. */
  function Origin(steps: seq<Step>, f: File): File {
    if steps == [] then f
    else
      var init, last := steps[..|steps| - 1], steps[|steps| - 1];
      Origin(init, if last.dst == f then last.src else f)
  }

  /** A jar holds what its origin held; one that no step wrote is untouched. */
  lemma {:induction false} RunContent(fs: Files, steps: seq<Step>, f: File)
    requires Runs(fs, steps) && IsJar(f)
    ensures f in Run(fs, steps) <==> f in fs || f in Dsts(steps)
    ensures f in Run(fs, steps) ==>
              Origin(steps, f) in fs && Run(fs, steps)[f] == fs[Origin(steps, f)]
  {
    if steps != [] {
      var init, last := steps[..|steps| - 1], steps[|steps| - 1];
      RunContent(fs, init, f);
      RunContent(fs, init, last.src);
      ReplacedAt(Run(fs, init), last, f);
      DstsOfSnoc(init, last);
      assert steps == init + [last];
    }
  }

  lemma DstsOfSnoc(steps: seq<Step>, s: Step)
    ensures Dsts(steps + [s]) == Dsts(steps) + {s.dst}
  {
    var more := steps + [s];
    assert more[|steps|] == s;
    forall f | f in Dsts(steps) ensures f in Dsts(more) {
      var i :| 0 <= i < |steps| && steps[i].dst == f;
      assert more[i].dst == f;
    }
  }

  /** Two states of the host agree on a file. */
  predicate SameAt(a: Files, b: Files, f: File) {
    (f in a <==> f in b) && (f in a ==> a[f] == b[f])
  }

  /** Nothing but destinations and their sidecars changes. */
  lemma {:induction false} RunFrame(fs: Files, steps: seq<Step>, f: File)
    requires f !in Dsts(steps) && f !in Sidecars(Dsts(steps))
    ensures SameAt(Run(fs, steps), fs, f)
  {
    if steps != [] {
      var init, last := steps[..|steps| - 1], steps[|steps| - 1];
      assert steps == init + [last];
      DstsOfSnoc(init, last);
      assert last.dst in Dsts(steps);
      RunFrame(fs, init, f);
    }
  }

  /** The steps before the last one that writes the file. */
  function BeforeLastWrite(steps: seq<Step>, f: File): seq<Step> {
    if steps == [] then []
    else if steps[|steps| - 1].dst == f then steps[..|steps| - 1]
    else BeforeLastWrite(steps[..|steps| - 1], f)
  }

  /** The backup of a destination that was there holds what the destination held before its
      last replacement; a file that no step wrote keeps the backup it had. */
  lemma {:induction false} BackupContent(fs: Files, steps: seq<Step>, f: File)
    requires Runs(fs, steps) && IsJar(f)
    ensures f in Dsts(steps) && f in fs ==>
              var original := Origin(BeforeLastWrite(steps, f), f);
              Bak(f) in Run(fs, steps) && original in fs && Run(fs, steps)[Bak(f)] == fs[original]
    ensures f !in Dsts(steps) ==> SameAt(Run(fs, steps), fs, Bak(f))
  {
    if steps != [] {
      var init, last := steps[..|steps| - 1], steps[|steps| - 1];
      assert steps == init + [last];
      DstsOfSnoc(init, last);
      ReplacedAt(Run(fs, init), last, f);
      if last.dst == f {
        RunContent(fs, init, f);
      } else {
        BackupContent(fs, init, f);
      }
    }
  }

  // ----- Undoing -----

  /** An entry of the change log. */
  datatype Change = Change(dst: File, backedUp: bool)

  ghost predicate JarChangesOnly(changes: seq<Change>) {
    forall i :: 0 <= i < |changes| ==> IsJar(changes[i].dst)
  }

  function ChangedFiles(changes: seq<Change>): set<File> {
    set i | 0 <= i < |changes| :: changes[i].dst
  }

  function Log(fs: Files, steps: seq<Step>): (changes: seq<Change>)
    ensures |changes| == |steps| && forall i :: 0 <= i < |steps| ==> changes[i].dst == steps[i].dst
  {
    if steps == [] then []
    else
      var init, last := steps[..|steps| - 1], steps[|steps| - 1];
      Log(fs, init) + [Change(last.dst, last.dst in Run(fs, init))]
  }

  function Undone(fs: Files, c: Change): Files {
    if !c.backedUp then fs - {c.dst}
    else if Bak(c.dst) in fs then (fs - {New(c.dst)})[c.dst := fs[Bak(c.dst)]]
    else fs
  }

  /** The log undone from its last entry to its first. */
  function UndoneAll(fs: Files, changes: seq<Change>): Files
    decreases |changes|
  {
    if changes == [] then fs
    else UndoneAll(Undone(fs, changes[|changes| - 1]), changes[..|changes| - 1])
  }

  /** The first entry of a file decides what undoing leaves of it. */
  function FirstChange(changes: seq<Change>, f: File): (c: Change)
    requires f in ChangedFiles(changes)
    ensures c.dst == f && c in changes
  {
    if changes[0].dst == f then changes[0]
    else
      assert f in ChangedFiles(changes[1..]) by {
        var i :| 0 <= i < |changes| && changes[i].dst == f;
        assert changes[1..][i - 1].dst == f;
      }
      FirstChange(changes[1..], f)
  }

  lemma ChangedOfSnoc(changes: seq<Change>, c: Change)
    ensures ChangedFiles(changes + [c]) == ChangedFiles(changes) + {c.dst}
  {
    var more := changes + [c];
    assert more[|changes|] == c;
    forall f | f in ChangedFiles(changes) ensures f in ChangedFiles(more) {
      var i :| 0 <= i < |changes| && changes[i].dst == f;
      assert more[i].dst == f;
    }
  }

  lemma {:induction false} FirstOfSnoc(changes: seq<Change>, c: Change, f: File)
    requires f in ChangedFiles(changes + [c])
    ensures FirstChange(changes + [c], f) == if f in ChangedFiles(changes) then FirstChange(changes, f) else c
  {
    ChangedOfSnoc(changes, c);
    var more := changes + [c];
    if changes != [] && changes[0].dst != f {
      assert more[1..] == changes[1..] + [c];
      assert ChangedFiles(changes) == {changes[0].dst} + ChangedFiles(changes[1..]) by {
        forall g | g in ChangedFiles(changes) ensures g in {changes[0].dst} + ChangedFiles(changes[1..]) {
          var i :| 0 <= i < |changes| && changes[i].dst == g;
          if i > 0 { assert changes[1..][i - 1].dst == g; }
        }
        forall g | g in ChangedFiles(changes[1..]) ensures g in ChangedFiles(changes) {
          var i :| 0 <= i < |changes| - 1 && changes[1..][i].dst == g;
          assert changes[i + 1].dst == g;
        }
      }
      FirstOfSnoc(changes[1..], c, f);
    } else if changes != [] {
      assert changes[0] == more[0];
      assert f in ChangedFiles(changes);
    }
  }

  /** One restoration, seen from one file that is not a staging copy. */
  lemma UndoneAt(fs: Files, c: Change, f: File)
    requires IsJar(c.dst) && f != New(c.dst)
    ensures var after := Undone(fs, c);
            && SameAt(after, fs, Bak(c.dst))
            && (f != c.dst ==> SameAt(after, fs, f))
            && (f == c.dst ==>
                  if !c.backedUp then f !in after
                  else Bak(f) in fs ==> f in after && after[f] == fs[Bak(f)])
  {
    SidecarsAreApart(c.dst, c.dst);
  }

  /** What one file is after an undo: decided by its first entry and its backup alone. */
  lemma {:induction false} UndoContent(fs: Files, changes: seq<Change>, f: File)
    requires JarChangesOnly(changes)
    requires forall i :: 0 <= i < |changes| ==> f != New(changes[i].dst)
    ensures var after := UndoneAll(fs, changes);
            && (f !in ChangedFiles(changes) ==> SameAt(after, fs, f))
            && (f in ChangedFiles(changes) ==>
                  if !FirstChange(changes, f).backedUp then f !in after
                  else Bak(f) in fs ==> f in after && after[f] == fs[Bak(f)])
    decreases |changes|
  {
    if changes != [] {
      var init, c := changes[..|changes| - 1], changes[|changes| - 1];
      assert changes == init + [c];
      ChangedOfSnoc(init, c);
      UndoneAt(fs, c, f);
      UndoContent(Undone(fs, c), init, f);
      if f in ChangedFiles(changes) {
        FirstOfSnoc(init, c, f);
        SidecarsAreApart(f, c.dst);
        SidecarsAreApart(c.dst, f);
        UndoneAt(fs, c, Bak(f));
      }
    }
  }

  // ----- The transaction -----

  /** The log says of each destination whether it was there before the first replacement. */
  lemma {:induction false} LogOfFirst(fs: Files, steps: seq<Step>, f: File)
    requires Runs(fs, steps) && f in Dsts(steps)
    ensures f in ChangedFiles(Log(fs, steps))
    ensures FirstChange(Log(fs, steps), f).backedUp <==> f in fs
    ensures IsJar(f)
  {
    var init, last := steps[..|steps| - 1], steps[|steps| - 1];
    assert steps == init + [last];
    DstsOfSnoc(init, last);
    ChangedOfSnoc(Log(fs, init), Change(last.dst, last.dst in Run(fs, init)));
    ChangedIsDsts(fs, init);
    FirstOfSnoc(Log(fs, init), Change(last.dst, last.dst in Run(fs, init)), f);
    if f in Dsts(init) {
      LogOfFirst(fs, init, f);
    } else {
      RunContent(fs, init, f);
    }
  }

  lemma ChangedIsDsts(fs: Files, steps: seq<Step>)
    ensures ChangedFiles(Log(fs, steps)) == Dsts(steps)
  {
    var log := Log(fs, steps);
    forall f ensures f in ChangedFiles(log) <==> f in Dsts(steps) {
      if i :| 0 <= i < |steps| && steps[i].dst == f { assert log[i].dst == f; }
      if i :| 0 <= i < |log| && log[i].dst == f { assert steps[i].dst == f; }
    }
  }

  lemma {:induction false} RunsWritesJars(fs: Files, steps: seq<Step>)
    requires Runs(fs, steps)
    ensures JarChangesOnly(Log(fs, steps))
    ensures forall i :: 0 <= i < |steps| ==> IsJar(steps[i].src) && IsJar(steps[i].dst)
  {
    if steps != [] {
      RunsWritesJars(fs, steps[..|steps| - 1]);
    }
  }

  /** The file was not there; or what it held before its last replacement is what it held at
      first, which can be read off the list of steps and the original files. */
  predicate BackupIsFirst(fs: Files, steps: seq<Step>, f: File) {
    f in fs ==>
      var original := Origin(BeforeLastWrite(steps, f), f);
      original in fs && fs[original] == fs[f]
  }

  /** Undoing a run gives a destination its old content back exactly in these cases. The undo may
      start in any state that agrees with the run on the backup of the file. */
  lemma UndoRestoresIff(fs: Files, steps: seq<Step>, now: Files, f: File)
    requires Runs(fs, steps) && f in Dsts(steps)
    requires SameAt(now, Run(fs, steps), Bak(f))
    ensures SameAt(UndoneAll(now, Log(fs, steps)), fs, f) <==> BackupIsFirst(fs, steps, f)
  {
    var log := Log(fs, steps);
    LogOfFirst(fs, steps, f);
    RunsWritesJars(fs, steps);
    forall i | 0 <= i < |log| ensures f != New(log[i].dst) {
      SidecarsAreApart(f, log[i].dst);
    }
    UndoContent(now, log, f);
    BackupContent(fs, steps, f);
  }

  ghost predicate DistinctDsts(steps: seq<Step>) {
    forall i, j :: 0 <= i < j < |steps| ==> steps[i].dst != steps[j].dst
  }

  lemma {:induction false} OriginOfUnwritten(steps: seq<Step>, f: File)
    requires f !in Dsts(steps)
    ensures Origin(steps, f) == f
  {
    if steps != [] {
      var init, last := steps[..|steps| - 1], steps[|steps| - 1];
      assert steps == init + [last];
      DstsOfSnoc(init, last);
      assert last.dst in Dsts(steps);
      OriginOfUnwritten(init, f);
    }
  }

  lemma {:induction false} WrittenOnce(steps: seq<Step>, f: File)
    requires DistinctDsts(steps) && f in Dsts(steps)
    ensures f !in Dsts(BeforeLastWrite(steps, f))
  {
    var init, last := steps[..|steps| - 1], steps[|steps| - 1];
    assert steps == init + [last];
    DstsOfSnoc(init, last);
    if last.dst != f {
      WrittenOnce(init, f);
    }
  }

  /** All or nothing: when no destination is written twice, undoing a run leaves every file but
      the sidecars as it was. The undo may start in any state that agrees with the run on the
      file, or on its backup if it is a destination. */
  lemma UndoRestoresAll(fs: Files, steps: seq<Step>, now: Files, f: File)
    requires Runs(fs, steps) && DistinctDsts(steps)
    requires f !in Sidecars(Dsts(steps))
    requires SameAt(now, Run(fs, steps), if f in Dsts(steps) then Bak(f) else f)
    ensures SameAt(UndoneAll(now, Log(fs, steps)), fs, f)
  {
    if f in Dsts(steps) {
      WrittenOnce(steps, f);
      OriginOfUnwritten(BeforeLastWrite(steps, f), f);
      UndoRestoresIff(fs, steps, now, f);
    } else {
      var log := Log(fs, steps);
      RunFrame(fs, steps, f);
      RunsWritesJars(fs, steps);
      ChangedIsDsts(fs, steps);
      forall i | 0 <= i < |log| ensures f != New(log[i].dst) {
        assert log[i].dst in Dsts(steps);
      }
      UndoContent(now, log, f);
    }
  }

  /** Without distinct destinations the undo can lose the original: a second replacement of the
      same jar overwrites its backup. */
  lemma RepeatedJarIsNotRestored()
    ensures var name := "stx-java-proxy-2.jar";
            var jar, first, second := ["lib", name], ["a", name], ["b", name];
            var fs: Files := map[jar := "old", first := "one", second := "two"];
            var steps := [Step(first, jar), Step(second, jar)];
            Runs(fs, steps) && !SameAt(UndoneAll(Run(fs, steps), Log(fs, steps)), fs, jar)
  {
    var name := "stx-java-proxy-2.jar";
    var jar, first, second := ["lib", name], ["a", name], ["b", name];
    var fs: Files := map[jar := "old", first := "one", second := "two"];
    var one, two := Step(first, jar), Step(second, jar);
    var steps := [one, two];
    assert steps[..1] == [one] && [one][..0] == [];
    assert IsJar(jar) && IsJar(first) && IsJar(second);
    assert Runs(fs, []) && Run(fs, []) == fs && one.src in fs;
    assert [one][|[one]| - 1] == one && [one][..|[one]| - 1] == [];
    assert Runs(fs, [one]);
    RunContent(fs, [one], second);
    assert Runs(fs, steps);
    assert BeforeLastWrite(steps, jar) == [one];
    assert Origin([one], jar) == first;
    assert steps[0].dst == jar;
    UndoRestoresIff(fs, steps, Run(fs, steps), jar);
  }

  /** Undoing is idempotent, and finishes what an undo that was only applied in part began:
      whatever entries have been undone before, undoing the whole log gives every file but the
      staging copies what undoing it from the start gives. */
  lemma UndoFinishesUndo(fs: Files, changes: seq<Change>, applied: seq<Change>, f: File)
    requires JarChangesOnly(changes) && forall c :: c in applied ==> c in changes
    requires forall i :: 0 <= i < |changes| ==> changes[i].backedUp ==> Bak(changes[i].dst) in fs
    requires forall i :: 0 <= i < |changes| ==> f != New(changes[i].dst)
    ensures SameAt(UndoneAll(UndoneAll(fs, applied), changes), UndoneAll(fs, changes), f)
  {
    forall i | 0 <= i < |applied|
      ensures IsJar(applied[i].dst) && applied[i].dst in ChangedFiles(changes) && f != New(applied[i].dst)
    {
      assert applied[i] in changes;
    }
    var half := UndoneAll(fs, applied);
    UndoContent(fs, applied, f);
    UndoContent(fs, changes, f);
    UndoContent(half, changes, f);
    if f in ChangedFiles(changes) {
      forall i | 0 <= i < |applied| ensures Bak(f) != New(applied[i].dst) {
        SidecarsAreApart(f, applied[i].dst);
      }
      forall c | c in applied ensures c.dst != Bak(f) {
        SidecarsAreApart(c.dst, f);
      }
      UndoContent(fs, applied, Bak(f));
      var c := FirstChange(changes, f);
      assert c in changes;
    }
  }

  // ----- States that agree outside some scratch files -----

  ghost predicate Agree(a: Files, b: Files, scratch: set<File>) {
    forall f :: f !in scratch ==> SameAt(a, b, f)
  }

  lemma AgreeChain(a: Files, b: Files, c: Files, early: set<File>, late: set<File>, all: set<File>)
    requires Agree(a, b, late) && Agree(b, c, early) && early <= all && late <= all
    ensures Agree(a, c, all)
  {
    forall f | f !in all ensures SameAt(a, c, f) {
      assert SameAt(a, b, f) && SameAt(b, c, f);
    }
  }

  function News(changes: seq<Change>): set<File> {
    set f | f in ChangedFiles(changes) :: New(f)
  }

  /** Undoing looks only at backups, so it takes agreeing states to agreeing states. */
  lemma {:induction false} UndoKeepsAgreement(a: Files, b: Files, changes: seq<Change>, scratch: set<File>)
    requires Agree(a, b, scratch) && News(changes) <= scratch
    requires forall c :: c in changes ==> Bak(c.dst) !in scratch
    ensures Agree(UndoneAll(a, changes), UndoneAll(b, changes), scratch)
    decreases |changes|
  {
    if changes != [] {
      var init, c := changes[..|changes| - 1], changes[|changes| - 1];
      assert changes == init + [c];
      ChangedOfSnoc(init, c);
      assert c in changes && New(c.dst) in News(changes) && Bak(c.dst) !in scratch;
      assert SameAt(a, b, Bak(c.dst));
      UndoKeepsAgreement(Undone(a, c), Undone(b, c), init, scratch);
    }
  }

  lemma {:induction false} UndoneOfConcat(fs: Files, early: seq<Change>, late: seq<Change>)
    ensures UndoneAll(fs, early + late) == UndoneAll(UndoneAll(fs, late), early)
    decreases |late|
  {
    if late == [] {
      assert early + late == early;
    } else {
      var init, c := late[..|late| - 1], late[|late| - 1];
      assert (early + late)[..|early + late| - 1] == early + init;
      UndoneOfConcat(Undone(fs, c), early, init);
    }
  }

  /** With distinct destinations each has one entry in the log, which says whether it was there,
      and a backup of what it held at first. */
  lemma EntryOnce(fs: Files, steps: seq<Step>, c: Change)
    requires Runs(fs, steps) && DistinctDsts(steps) && c in Log(fs, steps)
    ensures IsJar(c.dst) && c.dst in Dsts(steps) && (c.backedUp <==> c.dst in fs)
    ensures c.backedUp ==> Bak(c.dst) in Run(fs, steps) && Run(fs, steps)[Bak(c.dst)] == fs[c.dst]
  {
    var log, f := Log(fs, steps), c.dst;
    var i :| 0 <= i < |log| && log[i] == c;
    assert steps[i].dst == f;
    LogOfFirst(fs, steps, f);
    var j :| 0 <= j < |log| && log[j] == FirstChange(log, f);
    assert steps[j].dst == f && i == j;
    BackupContent(fs, steps, f);
    WrittenOnce(steps, f);
    OriginOfUnwritten(BeforeLastWrite(steps, f), f);
  }

  /** What undoing some entries leaves of a destination: what it held at first if it is among
      them, and otherwise what it held when the undoing began. */
  lemma UndoneInPartAt(fs: Files, steps: seq<Step>, now: Files, applied: seq<Change>, f: File)
    requires Runs(fs, steps) && DistinctDsts(steps) && f in Dsts(steps)
    requires forall c :: c in applied ==> c in Log(fs, steps)
    requires SameAt(now, Run(fs, steps), Bak(f))
    ensures SameAt(UndoneAll(now, applied), if f in ChangedFiles(applied) then fs else now, f)
  {
    RunsWritesJars(fs, steps);
    LogOfFirst(fs, steps, f);
    forall c | c in applied ensures IsJar(c.dst) && f != New(c.dst) {
      EntryOnce(fs, steps, c);
      SidecarsAreApart(f, c.dst);
    }
    UndoContent(now, applied, f);
    if f in ChangedFiles(applied) {
      EntryOnce(fs, steps, FirstChange(applied, f));
    }
  }

  /** With distinct destinations an undo applied in part leaves each destination either as it
      was before the run or as the run left it. */
  lemma UndoneInPart(fs: Files, steps: seq<Step>, now: Files, applied: seq<Change>, f: File)
    requires Runs(fs, steps) && DistinctDsts(steps) && f in Dsts(steps)
    requires forall c :: c in applied ==> c in Log(fs, steps)
    requires SameAt(now, Run(fs, steps), f) && SameAt(now, Run(fs, steps), Bak(f))
    ensures SameAt(UndoneAll(now, applied), fs, f) || SameAt(UndoneAll(now, applied), Run(fs, steps), f)
  {
    UndoneInPartAt(fs, steps, now, applied, f);
  }

  /** And what a full undo has restored stays restored, whatever entries are undone afterwards. */
  lemma RestoredStays(fs: Files, steps: seq<Step>, now: Files, applied: seq<Change>, f: File)
    requires Runs(fs, steps) && DistinctDsts(steps) && f in Dsts(steps)
    requires forall c :: c in applied ==> c in Log(fs, steps)
    requires SameAt(now, fs, f) && SameAt(now, Run(fs, steps), Bak(f))
    ensures SameAt(UndoneAll(now, applied), fs, f)
  {
    UndoneInPartAt(fs, steps, now, applied, f);
  }

  /** When the run is over, every entry that needs its backup has it. */
  lemma {:induction false} LogIsBacked(fs: Files, steps: seq<Step>, c: Change)
    requires Runs(fs, steps) && c in Log(fs, steps) && c.backedUp
    ensures IsJar(c.dst) && Bak(c.dst) in Run(fs, steps)
  {
    var init, last := steps[..|steps| - 1], steps[|steps| - 1];
    var log := Log(fs, init);
    assert Log(fs, steps) == log + [Change(last.dst, last.dst in Run(fs, init))];
    if c in log {
      LogIsBacked(fs, init, c);
    }
    ReplacedAt(Run(fs, init), last, c.dst);
  }
}
