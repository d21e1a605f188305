/** Where each new proxy jar has to be written. */
module JarPlan {
  import opened Options
  import opened Lists
  import opened Paths
  import opened JarChanges

  /** The files of the running jars with the given base name. */
  function Matching(cwd: File, base: string, running: seq<Path>): seq<File> {
    if running == [] then []
    else
      var init, jar := Matching(cwd, base, running[..|running| - 1]), running[|running| - 1];
      if Base(jar) == base then init + [Abs(cwd, jar)] else init
  }

  /** The file with the given name in the default directory, when there is one. */
  function InTargetDir(cwd: File, targetDir: Option<File>, base: string): seq<File> {
    if targetDir.Some? then [Abs(cwd, PathOf(targetDir.value) + [base])] else []
  }

  function Candidates(cwd: File, targetDir: Option<File>, base: string, running: seq<Path>): seq<File> {
    InTargetDir(cwd, targetDir, base) + Matching(cwd, base, running)
  }

  function Destinations(cwd: File, targetDir: Option<File>, base: string, running: seq<Path>): seq<File> {
    Dedup(Candidates(cwd, targetDir, base, running))
  }

  /** The local function "add": a set of the files seen guards the list. */
  method Add(out: seq<File>, seen: set<File>, p: File, ghost all: seq<File>) returns (out': seq<File>, seen': set<File>)
    requires out == Dedup(all) && seen == Set(all)
    ensures out' == Dedup(all + [p]) && seen' == Set(all + [p])
  {
    DedupOfSnoc(all, p);
    out', seen' := out, seen;
    if p !in seen {
      seen' := seen + {p};
      out' := out + [p];
    }
  }

  method ProxyJarDestinations(cwd: File, targetDir: Option<File>, base: string, running: seq<Path>)
      returns (out: seq<File>)
    ensures out == Destinations(cwd, targetDir, base, running)
  {
    out := [];
    var seen: set<File> := {};
    ghost var all: seq<File> := [];
    if targetDir.Some? {
      out, seen := Add(out, seen, Abs(cwd, PathOf(targetDir.value) + [base]), all);
      all := InTargetDir(cwd, targetDir, base);
    }
    for i := 0 to |running|
      invariant all == Candidates(cwd, targetDir, base, running[..i])
      invariant out == Dedup(all) && seen == Set(all)
    {
      CandidatesOfNext(cwd, targetDir, base, running, i);
      if Base(running[i]) == base {
        out, seen := Add(out, seen, Abs(cwd, running[i]), all);
        all := all + [Abs(cwd, running[i])];
      }
    }
    assert running[..|running|] == running;
  }

  lemma CandidatesOfNext(cwd: File, targetDir: Option<File>, base: string, running: seq<Path>, i: nat)
    requires i < |running|
    ensures var before := Candidates(cwd, targetDir, base, running[..i]);
            Candidates(cwd, targetDir, base, running[..i + 1]) ==
            if Base(running[i]) == base then before + [Abs(cwd, running[i])] else before
  {
    assert running[..i + 1][..i] == running[..i];
    var start, matching := InTargetDir(cwd, targetDir, base), Matching(cwd, base, running[..i]);
    var p := Abs(cwd, running[i]);
    assert start + (matching + [p]) == (start + matching) + [p];
  }

  lemma {:induction false} MatchingExact(cwd: File, base: string, running: seq<Path>, f: File)
    ensures f in Matching(cwd, base, running)
       <==> exists jar :: jar in running && Base(jar) == base && Abs(cwd, jar) == f
  {
    if running != [] {
      var n := |running| - 1;
      var init := running[..n];
      assert running == init + [running[n]];
      MatchingExact(cwd, base, init, f);
    }
  }

  /** The destinations are precisely the file in the target directory and the running jars with
      that base name, and each is a file of that name; none is listed twice. */
  lemma DestinationsExact(cwd: File, targetDir: Option<File>, base: string, running: seq<Path>, f: File)
    requires IsJarName(base)
    requires targetDir.Some? ==> CleanFile(targetDir.value)
    ensures f in Destinations(cwd, targetDir, base, running) <==>
              || (targetDir.Some? && f == targetDir.value + [base])
              || exists jar :: jar in running && Base(jar) == base && Abs(cwd, jar) == f
    ensures f in Destinations(cwd, targetDir, base, running) ==>
              CleanFile(f) && f != [] && f[|f| - 1] == base && IsJar(f)
    ensures var out := Destinations(cwd, targetDir, base, running);
            forall i, j :: 0 <= i < j < |out| ==> out[i] != out[j]
  {
    JarNameIsName(base);
    DedupSpec(Candidates(cwd, targetDir, base, running));
    MatchingExact(cwd, base, running, f);
    if targetDir.Some? {
      var dir := targetDir.value;
      CleanOfNamed(PathOf(dir), base);
      AbsOfPathOf(cwd, dir);
    }
    if jar :| jar in running && Base(jar) == base && Abs(cwd, jar) == f {
      AbsKeepsBase(cwd, jar);
    }
  }

  lemma DestinationsAreJars(cwd: File, targetDir: Option<File>, base: string, running: seq<Path>)
    requires IsJarName(base)
    requires targetDir.Some? ==> CleanFile(targetDir.value)
    ensures forall f :: f in Destinations(cwd, targetDir, base, running) ==> IsJar(f) && CleanFile(f)
  {
    forall f | f in Destinations(cwd, targetDir, base, running) ensures IsJar(f) && CleanFile(f) {
      DestinationsExact(cwd, targetDir, base, running, f);
    }
  }

  lemma SourceIsJar(cwd: File, src: Path)
    requires IsJarName(Base(src))
    ensures IsJar(Abs(cwd, src))
  {
    JarNameIsName(Base(src));
    AbsKeepsBase(cwd, src);
  }

  /** Destinations of jars with different names are apart from each other and from every backup
      and staging copy. */
  lemma DestinationsApart(cwd: File, targetDir: Option<File>, base: string, base': string, running: seq<Path>,
                          f: File, f': File)
    requires IsJarName(base) && IsJarName(base')
    requires targetDir.Some? ==> CleanFile(targetDir.value)
    requires f in Destinations(cwd, targetDir, base, running)
    requires f' in Destinations(cwd, targetDir, base', running)
    ensures base != base' ==> f != f'
    ensures f != Bak(f') && f != New(f')
  {
    DestinationsExact(cwd, targetDir, base, running, f);
    DestinationsExact(cwd, targetDir, base', running, f');
    SidecarsAreApart(f, f');
  }

  // ----- The plan of an update -----

  function StepsTo(src: File, dsts: seq<File>): (steps: seq<Step>)
    ensures |steps| == |dsts|
    ensures forall i :: 0 <= i < |dsts| ==> steps[i] == Step(src, dsts[i])
  {
    seq(|dsts|, i requires 0 <= i < |dsts| => Step(src, dsts[i]))
  }

  lemma StepsToOfNext(done: seq<Step>, src: File, dsts: seq<File>, i: nat)
    requires i < |dsts|
    ensures var todo := StepsTo(src, dsts);
            done + todo[..i + 1] == (done + todo[..i]) + [Step(src, dsts[i])]
  {
    var todo := StepsTo(src, dsts);
    assert todo[..i + 1] == todo[..i] + [todo[i]];
  }

  /** Every jar to each of its destinations, in the order of the list. */
  function Plan(cwd: File, targetDir: Option<File>, running: seq<Path>, jars: seq<Path>): seq<Step> {
    if jars == [] then []
    else
      var src := jars[|jars| - 1];
      Plan(cwd, targetDir, running, jars[..|jars| - 1])
      + StepsTo(Abs(cwd, src), Destinations(cwd, targetDir, Base(src), running))
  }

  ghost predicate DistinctBases(jars: seq<Path>) {
    forall i, j :: 0 <= i < j < |jars| ==> Base(jars[i]) != Base(jars[j])
  }

  ghost predicate JarNames(jars: seq<Path>) {
    forall i :: 0 <= i < |jars| ==> IsJarName(Base(jars[i]))
  }

  lemma JarNamesOfNext(jars: seq<Path>, i: nat)
    requires i < |jars| && JarNames(jars[..i]) && IsJarName(Base(jars[i]))
    ensures JarNames(jars[..i + 1])
  {
    assert forall k :: 0 <= k < i ==> jars[..i + 1][k] == jars[..i][k];
  }

  lemma PlanOfNext(cwd: File, targetDir: Option<File>, running: seq<Path>, jars: seq<Path>, i: nat)
    requires i < |jars|
    ensures Plan(cwd, targetDir, running, jars[..i + 1]) ==
            Plan(cwd, targetDir, running, jars[..i])
            + StepsTo(Abs(cwd, jars[i]), Destinations(cwd, targetDir, Base(jars[i]), running))
  {
    assert jars[..i + 1][..i] == jars[..i];
  }

  /** Each step writes a destination of one of the jars. */
  lemma {:induction false} PlanStep(cwd: File, targetDir: Option<File>, running: seq<Path>, jars: seq<Path>, k: nat)
      returns (i: nat)
    requires k < |Plan(cwd, targetDir, running, jars)|
    ensures i < |jars|
    ensures Plan(cwd, targetDir, running, jars)[k].dst in Destinations(cwd, targetDir, Base(jars[i]), running)
  {
    var n := |jars| - 1;
    var early := Plan(cwd, targetDir, running, jars[..n]);
    if k < |early| {
      i := PlanStep(cwd, targetDir, running, jars[..n], k);
    } else {
      i := n;
      assert StepsTo(Abs(cwd, jars[n]), Destinations(cwd, targetDir, Base(jars[n]), running))[k - |early|]
          == Plan(cwd, targetDir, running, jars)[k];
    }
  }

  lemma DistinctOfConcat(early: seq<Step>, late: seq<Step>)
    requires DistinctDsts(early) && DistinctDsts(late)
    requires forall i, j :: 0 <= i < |early| && 0 <= j < |late| ==> early[i].dst != late[j].dst
    ensures DistinctDsts(early + late)
  {
  }

  /** Jars with distinct base names never write the same destination twice. */
  lemma {:induction false} PlanIsDistinct(cwd: File, targetDir: Option<File>, running: seq<Path>, jars: seq<Path>)
    requires DistinctBases(jars) && JarNames(jars)
    requires targetDir.Some? ==> CleanFile(targetDir.value)
    ensures DistinctDsts(Plan(cwd, targetDir, running, jars))
  {
    if jars != [] {
      var n := |jars| - 1;
      var init := jars[..n];
      PlanIsDistinct(cwd, targetDir, running, init);
      var early := Plan(cwd, targetDir, running, init);
      var dsts := Destinations(cwd, targetDir, Base(jars[n]), running);
      var late := StepsTo(Abs(cwd, jars[n]), dsts);
      DedupSpec(Candidates(cwd, targetDir, Base(jars[n]), running));
      forall i, j | 0 <= i < |early| && 0 <= j < |late| ensures early[i].dst != late[j].dst {
        var k := PlanStep(cwd, targetDir, running, init, i);
        assert Base(init[k]) != Base(jars[n]);
        DestinationsApart(cwd, targetDir, Base(init[k]), Base(jars[n]), running, early[i].dst, dsts[j]);
      }
      DistinctOfConcat(early, late);
    }
  }

  lemma {:induction false} PlanPrefix(cwd: File, targetDir: Option<File>, running: seq<Path>, jars: seq<Path>, n: nat)
    requires n <= |jars|
    ensures Plan(cwd, targetDir, running, jars[..n]) <= Plan(cwd, targetDir, running, jars)
    decreases |jars|
  {
    if n == |jars| {
      assert jars[..n] == jars;
    } else {
      var init := jars[..|jars| - 1];
      PlanPrefix(cwd, targetDir, running, init, n);
      assert init[..n] == jars[..n];
    }
  }

  /** The plan is precisely every jar to each of its destinations. */
  lemma {:induction false} PlanExact(cwd: File, targetDir: Option<File>, running: seq<Path>, jars: seq<Path>, s: Step)
    ensures s in Plan(cwd, targetDir, running, jars) <==>
              exists jar :: jar in jars && s.src == Abs(cwd, jar)
                            && s.dst in Destinations(cwd, targetDir, Base(jar), running)
  {
    if jars != [] {
      var init, jar := jars[..|jars| - 1], jars[|jars| - 1];
      assert jars == init + [jar];
      PlanExact(cwd, targetDir, running, init, s);
      InStepsTo(Abs(cwd, jar), Destinations(cwd, targetDir, Base(jar), running), s);
    }
  }

  lemma InStepsTo(src: File, dsts: seq<File>, s: Step)
    ensures s in StepsTo(src, dsts) <==> s.src == src && s.dst in dsts
  {
    if s.src == src && s.dst in dsts {
      var i :| 0 <= i < |dsts| && dsts[i] == s.dst;
      assert StepsTo(src, dsts)[i] == s;
    }
  }

  /** Steps in which every write of the file is from one source. */
  lemma {:induction false} OriginIsSource(steps: seq<Step>, f: File, src: File)
    requires forall s :: s in steps && (s.dst == f || s.dst == src) ==> s.src == src
    ensures Origin(steps, f) == if f in Dsts(steps) then src else f
    ensures Origin(steps, src) == src
  {
    if steps != [] {
      var init, last := steps[..|steps| - 1], steps[|steps| - 1];
      assert steps == init + [last];
      DstsOfSnoc(init, last);
      OriginIsSource(init, f, src);
    }
  }

  /** One file has afterwards what another had at first. */
  predicate HasContentOf(start: Files, src: File, after: Files, f: File) {
    src in start && f in after && after[f] == start[src]
  }

  /** Every jar is at each of its destinations. */
  ghost predicate NewJarsInPlace(cwd: File, targetDir: Option<File>, running: seq<Path>, jars: seq<Path>,
                                 start: Files, after: Files) {
    forall jar, f :: jar in jars && f in Destinations(cwd, targetDir, Base(jar), running) ==>
      HasContentOf(start, Abs(cwd, jar), after, f)
  }

  /** With distinct base names the plan brings that about. */
  lemma PlanPutsInPlace(cwd: File, targetDir: Option<File>, running: seq<Path>, jars: seq<Path>, start: Files)
    requires DistinctBases(jars) && JarNames(jars)
    requires targetDir.Some? ==> CleanFile(targetDir.value)
    requires Runs(start, Plan(cwd, targetDir, running, jars))
    ensures NewJarsInPlace(cwd, targetDir, running, jars, start, Run(start, Plan(cwd, targetDir, running, jars)))
  {
    forall jar, f | jar in jars && f in Destinations(cwd, targetDir, Base(jar), running)
      ensures HasContentOf(start, Abs(cwd, jar), Run(start, Plan(cwd, targetDir, running, jars)), f)
    {
      NewContent(cwd, targetDir, running, jars, start, jar, f);
    }
  }

  lemma NewContent(cwd: File, targetDir: Option<File>, running: seq<Path>, jars: seq<Path>, fs: Files, jar: Path,
                   f: File)
    requires DistinctBases(jars) && JarNames(jars) && jar in jars
    requires targetDir.Some? ==> CleanFile(targetDir.value)
    requires Runs(fs, Plan(cwd, targetDir, running, jars))
    requires f in Destinations(cwd, targetDir, Base(jar), running)
    ensures HasContentOf(fs, Abs(cwd, jar), Run(fs, Plan(cwd, targetDir, running, jars)), f)
  {
    var plan, src := Plan(cwd, targetDir, running, jars), Abs(cwd, jar);
    DestinationIsNamed(cwd, targetDir, running, jar, f);
    JarKeepsName(cwd, jar);
    forall s | s in plan && (s.dst == f || s.dst == src) ensures s.src == src {
      OnlyFromJar(cwd, targetDir, running, jars, jar, s);
    }
    PlanHas(cwd, targetDir, running, jars, jar, f);
    WrittenFromOne(fs, plan, f, src);
  }

  lemma PlanHas(cwd: File, targetDir: Option<File>, running: seq<Path>, jars: seq<Path>, jar: Path, f: File)
    requires jar in jars && f in Destinations(cwd, targetDir, Base(jar), running)
    ensures Step(Abs(cwd, jar), f) in Plan(cwd, targetDir, running, jars)
  {
    PlanExact(cwd, targetDir, running, jars, Step(Abs(cwd, jar), f));
  }

  predicate IsNamed(f: File, name: string) {
    f != [] && f[|f| - 1] == name
  }

  lemma DestinationIsNamed(cwd: File, targetDir: Option<File>, running: seq<Path>, jar: Path, f: File)
    requires IsJarName(Base(jar)) && (targetDir.Some? ==> CleanFile(targetDir.value))
    requires f in Destinations(cwd, targetDir, Base(jar), running)
    ensures IsJar(f) && IsNamed(f, Base(jar))
  {
    DestinationsExact(cwd, targetDir, Base(jar), running, f);
  }

  lemma JarKeepsName(cwd: File, jar: Path)
    requires IsJarName(Base(jar))
    ensures IsNamed(Abs(cwd, jar), Base(jar))
  {
    JarNameIsName(Base(jar));
    AbsKeepsBase(cwd, jar);
  }

  /** A file that is written from one source only, which nothing else overwrites. */
  lemma WrittenFromOne(fs: Files, steps: seq<Step>, f: File, src: File)
    requires Runs(fs, steps) && Step(src, f) in steps && IsJar(f)
    requires forall s :: s in steps && (s.dst == f || s.dst == src) ==> s.src == src
    ensures HasContentOf(fs, src, Run(fs, steps), f)
  {
    var k :| 0 <= k < |steps| && steps[k] == Step(src, f);
    assert f in Dsts(steps);
    OriginIsSource(steps, f, src);
    RunContent(fs, steps, f);
  }

  /** A step that writes a file of the name of a jar is a step from that jar. */
  lemma OnlyFromJar(cwd: File, targetDir: Option<File>, running: seq<Path>, jars: seq<Path>, jar: Path, s: Step)
    requires DistinctBases(jars) && JarNames(jars) && jar in jars
    requires targetDir.Some? ==> CleanFile(targetDir.value)
    requires s in Plan(cwd, targetDir, running, jars) && IsNamed(s.dst, Base(jar))
    ensures s.src == Abs(cwd, jar)
  {
    PlanExact(cwd, targetDir, running, jars, s);
    var other :| other in jars && s.src == Abs(cwd, other)
                 && s.dst in Destinations(cwd, targetDir, Base(other), running);
    DestinationIsNamed(cwd, targetDir, running, other, s.dst);
    var i :| 0 <= i < |jars| && jars[i] == jar;
    var j :| 0 <= j < |jars| && jars[j] == other;
    assert i == j;
  }
}
