/** The checker's policy over a list of changes, and what it says of a tree that the inserter
    has been through. */
module LicensePolicy {
  import opened Options
  import opened Lists
  import opened LicenseHeader
  import opened LicenseInserter
  import opened TextMode
  import opened SourceTree
  import opened TreeRuns

  // ----- Changes -----

  datatype Status = Added | Modified | Renamed

  datatype Change = Change(status: Status, path: string, oldPath: Option<string>)

  function PathsOf(changes: seq<Change>): (paths: seq<string>)
    ensures |paths| == |changes|
    ensures forall i :: 0 <= i < |changes| ==> paths[i] == changes[i].path
  {
    seq(|changes|, i requires 0 <= i < |changes| => changes[i].path)
  }

  /** Assigning to a key of a dictionary: in place if the key is there, at the end if not. */
  function Put(dict: seq<Change>, change: Change): seq<Change> {
    if dict == [] then [change]
    else if dict[0].path == change.path then [change] + dict[1..]
    else [dict[0]] + Put(dict[1..], change)
  }

  function Deduped(changes: seq<Change>): seq<Change> {
    if changes == [] then [] else Put(Deduped(changes[..|changes| - 1]), changes[|changes| - 1])
  }

  method DedupeChanges(changes: seq<Change>) returns (deduped: seq<Change>)
    ensures deduped == Deduped(changes)
  {
    deduped := [];
    for i := 0 to |changes|
      invariant deduped == Deduped(changes[..i])
    {
      assert changes[..i + 1][..i] == changes[..i];
      deduped := Put(deduped, changes[i]);
    }
    assert changes[..|changes|] == changes;
  }

  lemma PathsOfCons(c: Change, dict: seq<Change>)
    ensures PathsOf([c] + dict) == [c.path] + PathsOf(dict)
  {
  }

  lemma {:induction false} PathsOfPut(dict: seq<Change>, change: Change)
    ensures PathsOf(Put(dict, change))
         == if change.path in PathsOf(dict) then PathsOf(dict) else PathsOf(dict) + [change.path]
  {
    if dict != [] {
      var first, rest := dict[0], dict[1..];
      assert dict == [first] + rest;
      PathsOfCons(first, rest);
      if first.path != change.path {
        PathsOfPut(rest, change);
        PathsOfCons(first, Put(rest, change));
        ConsInTurn(first.path, PathsOf(rest), change.path);
      } else {
        PathsOfCons(change, rest);
      }
    }
  }

  lemma ConsInTurn(first: string, rest: seq<string>, last: string)
    ensures [first] + (rest + [last]) == ([first] + rest) + [last]
    ensures first != last ==> (last in [first] + rest <==> last in rest)
  {
  }

  lemma PathsOfSnoc(changes: seq<Change>)
    requires changes != []
    ensures var n := |changes| - 1; PathsOf(changes) == PathsOf(changes[..n]) + [changes[n].path]
  {
  }

  /** The paths keep their order of first mention. */
  lemma {:induction false} DedupedPaths(changes: seq<Change>)
    ensures PathsOf(Deduped(changes)) == Dedup(PathsOf(changes))
  {
    if changes != [] {
      var init, last := changes[..|changes| - 1], changes[|changes| - 1];
      DedupedPaths(init);
      assert PathsOf(Deduped(changes)) == if last.path in PathsOf(Deduped(init)) then PathsOf(Deduped(init))
                                          else PathsOf(Deduped(init)) + [last.path] by {
        PathsOfPut(Deduped(init), last);
      }
      PathsOfSnoc(changes);
      InDedup(PathsOf(init), last.path);
      DedupOfSnoc(PathsOf(init), last.path);
    }
  }

  lemma InDedup(paths: seq<string>, path: string)
    ensures path in Dedup(paths) <==> path in paths
  {
    DedupSpec(paths);
  }

  lemma {:induction false} InPut(dict: seq<Change>, change: Change, c: Change)
    requires forall i, j :: 0 <= i < j < |dict| ==> dict[i].path != dict[j].path
    ensures c in Put(dict, change) <==> c == change || (c in dict && c.path != change.path)
  {
    if dict != [] {
      assert dict == [dict[0]] + dict[1..];
      if dict[0].path != change.path {
        InPut(dict[1..], change, c);
      } else {
        assert forall x :: x in dict[1..] ==> x.path != change.path;
      }
    }
  }

  ghost predicate IsLast(changes: seq<Change>, i: nat) {
    i < |changes| && forall j :: i < j < |changes| ==> changes[j].path != changes[i].path
  }

  lemma InDeduped(changes: seq<Change>, c: Change)
    requires changes != []
    ensures var init, last := changes[..|changes| - 1], changes[|changes| - 1];
            c in Deduped(changes) <==> c == last || (c in Deduped(init) && c.path != last.path)
  {
    var init := changes[..|changes| - 1];
    DedupedPaths(init);
    DedupSpec(PathsOf(init));
    DistinctPaths(Deduped(init));
    InPut(Deduped(init), changes[|changes| - 1], c);
  }

  /** A change is kept if it is the last one of its path, */
  lemma {:induction false} LastIsKept(changes: seq<Change>, i: nat)
    requires IsLast(changes, i)
    ensures changes[i] in Deduped(changes)
  {
    var n := |changes| - 1;
    InDeduped(changes, changes[i]);
    if i < n {
      assert changes[n].path != changes[i].path;
      LastIsKept(changes[..n], i);
    }
  }

  /** and only then. */
  lemma {:induction false} KeptIsLast(changes: seq<Change>, c: Change) returns (i: nat)
    requires c in Deduped(changes)
    ensures IsLast(changes, i) && changes[i] == c
  {
    var n := |changes| - 1;
    InDeduped(changes, c);
    if c == changes[n] {
      i := n;
    } else {
      i := KeptIsLast(changes[..n], c);
      assert forall j :: i < j < n ==> changes[..n][j] == changes[j];
    }
  }

  lemma DistinctPaths(dict: seq<Change>)
    requires forall i, j :: 0 <= i < j < |PathsOf(dict)| ==> PathsOf(dict)[i] != PathsOf(dict)[j]
    ensures forall i, j :: 0 <= i < j < |dict| ==> dict[i].path != dict[j].path
  {
    forall i, j | 0 <= i < j < |dict| ensures dict[i].path != dict[j].path {
      assert PathsOf(dict)[i] != PathsOf(dict)[j];
    }
  }

  // ----- Policy -----

  datatype Detected = Missing | Found(license: License)

  function DetectLicense(files: Files, file: File): Detected {
    if file !in files then Missing else Found(Detect(Universal(TextOf(files[file])), Suffix(file)))
  }

  /** What the checker finds in the files of a tree. */
  function Detector(files: Files): string -> Detected {
    path => DetectLicense(files, Parts(path))
  }

  datatype Verdict = NewOk | NewBad(detected: Detected) | LegacyOk | LegacyBad(detected: Detected) | Ignored

  predicate IsLegacy(change: Change, allowlist: set<string>) {
    || change.path in allowlist
    || (change.oldPath.Some? && change.oldPath.value != "" && change.oldPath.value in allowlist)
  }

  function Judged(detect: string -> Detected, change: Change, allowlist: set<string>): Verdict {
    var detected := detect(change.path);
    if change.status == Added then
      if detected == Found(Apache) then NewOk else NewBad(detected)
    else if IsLegacy(change, allowlist) then
      if detected == Found(Mit) then LegacyOk else LegacyBad(detected)
    else Ignored
  }

  datatype PolicyError = PolicyError(path: string, verdict: Verdict)

  function Relevant(changes: seq<Change>): seq<Change> {
    if changes == [] then []
    else
      var init, last := Relevant(changes[..|changes| - 1]), changes[|changes| - 1];
      if IsSupported(Parts(last.path)) then init + [last] else init
  }

  datatype Report = Report(errors: seq<PolicyError>, notices: seq<string>, ignored: seq<string>)

  function Reported(report: Report, path: string, verdict: Verdict, verbose: bool): Report {
    match verdict
    case NewBad(_) | LegacyBad(_) => report.(errors := report.errors + [PolicyError(path, verdict)])
    case NewOk | LegacyOk => report.(notices := report.notices + [path])
    case Ignored => if verbose then report.(ignored := report.ignored + [path]) else report
  }

  function ReportOn(detect: string -> Detected, changes: seq<Change>, allowlist: set<string>, verbose: bool): Report {
    if changes == [] then Report([], [], [])
    else
      var last := changes[|changes| - 1];
      Reported(ReportOn(detect, changes[..|changes| - 1], allowlist, verbose),
               last.path, Judged(detect, last, allowlist), verbose)
  }

  /** The policy loop. */
  method CheckChanges(detect: string -> Detected, relevant: seq<Change>, allowlist: set<string>, verbose: bool)
      returns (errors: seq<PolicyError>, notices: seq<string>, ignored: seq<string>)
    ensures Report(errors, notices, ignored) == ReportOn(detect, relevant, allowlist, verbose)
  {
    errors, notices, ignored := [], [], [];
    for i := 0 to |relevant|
      invariant Report(errors, notices, ignored) == ReportOn(detect, relevant[..i], allowlist, verbose)
    {
      var change := relevant[i];
      assert relevant[..i + 1][..i] == relevant[..i];
      var detected := detect(change.path);
      if change.status == Added {
        if detected != Found(Apache) {
          errors := errors + [PolicyError(change.path, NewBad(detected))];
        } else {
          notices := notices + [change.path];
        }
        continue;
      }
      if IsLegacy(change, allowlist) {
        if detected != Found(Mit) {
          errors := errors + [PolicyError(change.path, LegacyBad(detected))];
        } else {
          notices := notices + [change.path];
        }
        continue;
      }
      if verbose {
        ignored := ignored + [change.path];
      }
    }
    assert relevant[..|relevant|] == relevant;
  }

  /** Being verbose changes no error. */
  lemma {:induction false} VerboseIsHarmless(detect: string -> Detected, changes: seq<Change>, allowlist: set<string>)
    ensures var loud, quiet := ReportOn(detect, changes, allowlist, true), ReportOn(detect, changes, allowlist, false);
            loud.errors == quiet.errors && loud.notices == quiet.notices
  {
    if changes != [] {
      VerboseIsHarmless(detect, changes[..|changes| - 1], allowlist);
    }
  }

  predicate IsError(verdict: Verdict) {
    verdict.NewBad? || verdict.LegacyBad?
  }

  ghost predicate JudgedAt(detect: string -> Detected, changes: seq<Change>, allowlist: set<string>,
                           error: PolicyError, i: nat) {
    i < |changes| && changes[i].path == error.path && Judged(detect, changes[i], allowlist) == error.verdict
  }

  /** Each error is the verdict on a change, and each bad verdict an error. */
  lemma {:induction false} ErrorIff(detect: string -> Detected, changes: seq<Change>, allowlist: set<string>,
                                    error: PolicyError)
    ensures error in ReportOn(detect, changes, allowlist, false).errors
       <==> IsError(error.verdict) && exists i: nat :: JudgedAt(detect, changes, allowlist, error, i)
  {
    if changes != [] {
      var n := |changes| - 1;
      var init := changes[..n];
      ErrorIff(detect, init, allowlist, error);
      assert JudgedAt(detect, changes, allowlist, error, n)
        <==> changes[n].path == error.path && Judged(detect, changes[n], allowlist) == error.verdict;
      assert forall i: nat :: i < n ==>
          (JudgedAt(detect, init, allowlist, error, i) <==> JudgedAt(detect, changes, allowlist, error, i));
    }
  }

  /** An error about a new file is the verdict on an added one. */
  lemma JudgedNew(detect: string -> Detected, changes: seq<Change>, allowlist: set<string>, error: PolicyError)
      returns (c: Change)
    requires error in ReportOn(detect, changes, allowlist, false).errors && error.verdict.NewBad?
    ensures c in changes && c.status == Added && c.path == error.path && Judged(detect, c, allowlist) == error.verdict
  {
    ErrorIff(detect, changes, allowlist, error);
    var i: nat :| JudgedAt(detect, changes, allowlist, error, i);
    c := changes[i];
  }

  lemma InSnoc(changes: seq<Change>, c: Change)
    requires changes != []
    ensures c in changes <==> c in changes[..|changes| - 1] || c == changes[|changes| - 1]
  {
    assert changes == changes[..|changes| - 1] + [changes[|changes| - 1]];
  }

  lemma {:induction false} RelevantSpec(changes: seq<Change>, c: Change)
    ensures c in Relevant(changes) <==> c in changes && IsSupported(Parts(c.path))
  {
    if changes != [] {
      var init := changes[..|changes| - 1];
      RelevantSpec(init, c);
      InSnoc(changes, c);
    }
  }

  ghost predicate ReportsPath(errors: seq<PolicyError>, path: string) {
    exists error :: error in errors && error.path == path
  }

  /** Each change is filed once: as an error, as a notice or, if the output is verbose, as ignored. */
  lemma {:induction false} EachIsFiled(detect: string -> Detected, changes: seq<Change>, allowlist: set<string>)
    ensures var report := ReportOn(detect, changes, allowlist, true);
            |report.errors| + |report.notices| + |report.ignored| == |changes|
  {
    if changes != [] {
      EachIsFiled(detect, changes[..|changes| - 1], allowlist);
    }
  }

  /** A notice is about a change that is in order: a new file that reads as Apache, or an old one on the
      list that reads as MIT. */
  lemma {:induction false} NoticeIff(detect: string -> Detected, changes: seq<Change>, allowlist: set<string>,
                                     path: string)
    ensures path in ReportOn(detect, changes, allowlist, false).notices
       <==> exists c :: c in changes && c.path == path && InOrder(detect, c, allowlist)
  {
    if changes != [] {
      var init, last := changes[..|changes| - 1], changes[|changes| - 1];
      NoticeIff(detect, init, allowlist, path);
      InSnoc(changes, last);
      assert forall c :: c in changes <==> c in init || c == last by {
        forall c ensures c in changes <==> c in init || c == last { InSnoc(changes, c); }
      }
    }
  }

  ghost predicate InOrder(detect: string -> Detected, c: Change, allowlist: set<string>) {
    if c.status == Added then detect(c.path) == Found(Apache)
    else
      && (c.path in allowlist || (c.oldPath.Some? && c.oldPath.value != "" && c.oldPath.value in allowlist))
      && detect(c.path) == Found(Mit)
  }

  lemma JudgedBadIff(detect: string -> Detected, c: Change, allowlist: set<string>)
    ensures IsError(Judged(detect, c, allowlist))
       <==> if c.status == Added then detect(c.path) != Found(Apache)
            else
              && (c.path in allowlist
                  || (c.oldPath.Some? && c.oldPath.value != "" && c.oldPath.value in allowlist))
              && detect(c.path) != Found(Mit)
  {
  }

  lemma ReportedIfBad(detect: string -> Detected, relevant: seq<Change>, allowlist: set<string>, c: Change)
    requires c in relevant && IsError(Judged(detect, c, allowlist))
    ensures ReportsPath(ReportOn(detect, relevant, allowlist, false).errors, c.path)
  {
    var error := PolicyError(c.path, Judged(detect, c, allowlist));
    var k: nat :| k < |relevant| && relevant[k] == c;
    assert JudgedAt(detect, relevant, allowlist, error, k);
    ErrorIff(detect, relevant, allowlist, error);
  }

  lemma BadIfReported(detect: string -> Detected, relevant: seq<Change>, allowlist: set<string>, path: string)
      returns (c: Change)
    requires ReportsPath(ReportOn(detect, relevant, allowlist, false).errors, path)
    ensures c in relevant && c.path == path && IsError(Judged(detect, c, allowlist))
  {
    var error :| error in ReportOn(detect, relevant, allowlist, false).errors && error.path == path;
    ErrorIff(detect, relevant, allowlist, error);
    var i: nat :| JudgedAt(detect, relevant, allowlist, error, i);
    c := relevant[i];
  }

  /** The policy: the only change of its path that is kept is reported exactly if it is about a new file
      that does not read as Apache, or about an old one that is on the list, by its own path or by the one
      it had, and does not read as MIT. */
  lemma PolicyIff(files: Files, changes: seq<Change>, allowlist: set<string>, c: Change)
    requires c in changes && IsSupported(Parts(c.path))
    requires forall other :: other in changes && other.path == c.path ==> other == c
    ensures ReportsPath(ErrorsFor(files, changes, allowlist), c.path)
       <==> var found := DetectLicense(files, Parts(c.path));
            if c.status == Added then found != Found(Apache)
            else
              && (c.path in allowlist
                  || (c.oldPath.Some? && c.oldPath.value != "" && c.oldPath.value in allowlist))
              && found != Found(Mit)
  {
    var detect, relevant := Detector(files), Relevant(changes);
    RelevantSpec(changes, c);
    JudgedBadIff(detect, c, allowlist);
    if IsError(Judged(detect, c, allowlist)) {
      ReportedIfBad(detect, relevant, allowlist, c);
    }
    if ReportsPath(ErrorsFor(files, changes, allowlist), c.path) {
      var other := BadIfReported(detect, relevant, allowlist, c.path);
      RelevantSpec(changes, other);
    }
  }

  /** A change of a path that is not supported is not looked at. */
  lemma UnsupportedIsIgnored(files: Files, changes: seq<Change>, allowlist: set<string>, path: string)
    requires !IsSupported(Parts(path))
    ensures !ReportsPath(ErrorsFor(files, changes, allowlist), path)
  {
    if ReportsPath(ErrorsFor(files, changes, allowlist), path) {
      var c := BadIfReported(Detector(files), Relevant(changes), allowlist, path);
      RelevantSpec(changes, c);
    }
  }

  // ----- After the inserter -----

  /** The errors of a check of the whole tree. */
  function ErrorsFor(files: Files, changes: seq<Change>, allowlist: set<string>): seq<PolicyError> {
    ReportOn(Detector(files), Relevant(changes), allowlist, false).errors
  }

  /** One visit of a file without a license, as the checker reads it. */
  lemma VisitReadsAlike(texts: HeaderTexts, content: string, suffix: string)
    requires Readable(texts) && suffix in SUPPORTED_EXTENSIONS && ClearShebang(TextOf(content))
    requires Detect(TextOf(content), suffix) == NoLicense
    ensures var text' := TextOf(Visited(texts, content, suffix));
            && Detect(Universal(text'), suffix) == (if NeedsTwo(content, suffix) then NoLicense else Apache)
            && (NeedsTwo(content, suffix) ==> ClearShebang(text'))
  {
    TextOfVisited(texts, content, suffix);
    InsertedReadsAlike(texts, TextOf(content), suffix);
    if NeedsTwo(content, suffix) {
      GluedHasNoShebang(texts, TextOf(content), suffix);
    }
  }

  /** Any number of visits, as the checker reads what they leave. */
  lemma VisitsReadAlike(texts: HeaderTexts, content: string, suffix: string, n: nat)
    requires Readable(texts) && suffix in SUPPORTED_EXTENSIONS && n >= 1 && ClearShebang(TextOf(content))
    requires Detect(TextOf(content), suffix) == NoLicense
    ensures Detect(Universal(TextOf(Times(texts, content, suffix, n))), suffix)
         == if NeedsTwo(content, suffix) && n == 1 then NoLicense else Apache
  {
    var once := Visited(texts, content, suffix);
    VisitsSettle(texts, content, suffix, n);
    VisitReadsAlike(texts, content, suffix);
    DetectVisited(texts, content, suffix);
    if NeedsTwo(content, suffix) && n > 1 {
      VisitReadsAlike(texts, once, suffix);
    }
  }

  lemma NoVisitNeeded(texts: HeaderTexts, content: string, suffix: string, n: nat)
    requires Readable(texts) && suffix in SUPPORTED_EXTENSIONS && n >= 1 && Detect(TextOf(content), suffix) != NoLicense
    ensures Times(texts, content, suffix, n) == content
  {
    VisitsSettle(texts, content, suffix, n);
    DetectVisited(texts, content, suffix);
  }

  /** If the inserter puts a header in, the checker comes to it behind the shebang line. */
  predicate ReadsOn(files: Files, file: File)
    requires file in files
  {
    Detect(TextOf(files[file]), Suffix(file)) == NoLicense ==> ClearShebang(TextOf(files[file]))
  }

  /** What the checker finds in a file after a run that visited it: if the inserter found a license
      there, what the checker would have found before. */
  lemma DetectedAfterRun(texts: HeaderTexts, files: Files, paths: seq<string>, file: File)
    requires Readable(texts) && AllSupported(paths) && file in files
    requires Visits(paths, file) > 0 && ReadsOn(files, file)
    ensures DetectLicense(VisitedAll(texts, files, paths), file)
         == if Detect(TextOf(files[file]), Suffix(file)) != NoLicense then DetectLicense(files, file)
            else Found(if LeftOut(files, paths, file) then NoLicense else Apache)
  {
    var content, suffix, n := files[file], Suffix(file), Visits(paths, file);
    RunAt(texts, files, paths, file);
    if Detect(TextOf(content), suffix) == NoLicense {
      VisitsReadAlike(texts, content, suffix, n);
    } else {
      NoVisitNeeded(texts, content, suffix, n);
    }
  }

  /** Without any carriage return both scripts read the same. */
  lemma PlainReadsAlike(files: Files, file: File)
    requires file in files && '\r' !in files[file]
    ensures DetectLicense(files, file) == Found(Detect(TextOf(files[file]), Suffix(file)))
  {
    assert '\r' !in TextOf(files[file]);
    UniversalOfPlain(TextOf(files[file]));
  }

  /** A new file that the inserter has been given. */
  predicate Covered(files: Files, paths: seq<string>, change: Change) {
    var file := Parts(change.path);
    change.status == Added && file in files && ReadsOn(files, file) && Visits(paths, file) > 0
  }

  /** A file in which the inserter found a license, but the checker does not find Apache. */
  predicate KeepsOther(files: Files, file: File) {
    && file in files && Detect(TextOf(files[file]), Suffix(file)) != NoLicense
    && DetectLicense(files, file) != Found(Apache)
  }

  predicate WasMit(files: Files, file: File) {
    file in files && Detect(TextOf(files[file]), Suffix(file)) == Mit
  }

  /** Without any carriage return these are the files under the MIT license. */
  lemma KeepsOtherIsMit(files: Files, file: File)
    requires file in files ==> '\r' !in files[file]
    ensures KeepsOther(files, file) <==> WasMit(files, file)
    ensures WasMit(files, file) ==> DetectLicense(files, file) == Found(Mit)
  {
    if file in files {
      PlainReadsAlike(files, file);
    }
  }

  /** Inserter followed by checker: a new file is an error exactly if it carried another license
      already, or if the inserter left it out. */
  lemma InsertedPassesIff(texts: HeaderTexts, files: Files, paths: seq<string>, change: Change, allowlist: set<string>)
    requires Readable(texts) && AllSupported(paths) && Covered(files, paths, change)
    ensures var file := Parts(change.path);
            Judged(Detector(VisitedAll(texts, files, paths)), change, allowlist)
            == if KeepsOther(files, file) then NewBad(DetectLicense(files, file))
               else if LeftOut(files, paths, file) then NewBad(Found(NoLicense))
               else NewOk
  {
    DetectedAfterRun(texts, files, paths, Parts(change.path));
  }

  predicate AllCovered(files: Files, paths: seq<string>, changes: seq<Change>) {
    forall c :: c in changes && c.status == Added && IsSupported(Parts(c.path)) ==> Covered(files, paths, c)
  }

  predicate AddedAs(changes: seq<Change>, path: string) {
    exists c :: c in changes && c.status == Added && c.path == path
  }

  /** The added files that carried another license. */
  predicate IsOtherAddition(files: Files, changes: seq<Change>, path: string) {
    AddedAs(changes, path) && IsSupported(Parts(path)) && KeepsOther(files, Parts(path))
  }

  lemma ErrorIsOther(texts: HeaderTexts, files: Files, paths: seq<string>, changes: seq<Change>,
                     allowlist: set<string>, path: string, d: Detected)
    requires Readable(texts) && AllSupported(paths) && AllCovered(files, paths, changes)
    requires forall file :: !LeftOut(files, paths, file)
    requires PolicyError(path, NewBad(d)) in ErrorsFor(VisitedAll(texts, files, paths), changes, allowlist)
    ensures IsOtherAddition(files, changes, path) && d == DetectLicense(files, Parts(path))
  {
    var detect, relevant := Detector(VisitedAll(texts, files, paths)), Relevant(changes);
    var c := JudgedNew(detect, relevant, allowlist, PolicyError(path, NewBad(d)));
    RelevantSpec(changes, c);
    assert Covered(files, paths, c);
    InsertedPassesIff(texts, files, paths, c, allowlist);
  }

  lemma OtherIsError(texts: HeaderTexts, files: Files, paths: seq<string>, changes: seq<Change>,
                     allowlist: set<string>, c: Change)
    requires Readable(texts) && AllSupported(paths) && AllCovered(files, paths, changes)
    requires c in changes && c.status == Added && IsSupported(Parts(c.path)) && KeepsOther(files, Parts(c.path))
    ensures PolicyError(c.path, NewBad(DetectLicense(files, Parts(c.path))))
         in ErrorsFor(VisitedAll(texts, files, paths), changes, allowlist)
  {
    var detect, relevant := Detector(VisitedAll(texts, files, paths)), Relevant(changes);
    var error := PolicyError(c.path, NewBad(DetectLicense(files, Parts(c.path))));
    RelevantSpec(changes, c);
    InsertedPassesIff(texts, files, paths, c, allowlist);
    var i :| 0 <= i < |relevant| && relevant[i] == c;
    assert JudgedAt(detect, relevant, allowlist, error, i);
    ErrorIff(detect, relevant, allowlist, error);
  }

  /** The same for the whole list that the checker reports: the errors about new files are those
      that carried another license, if the inserter was given all of them and left none out. */
  lemma ErrorsAfterInserter(texts: HeaderTexts, files: Files, paths: seq<string>, changes: seq<Change>,
                            allowlist: set<string>, path: string)
    requires Readable(texts) && AllSupported(paths) && AllCovered(files, paths, changes)
    requires forall file :: !LeftOut(files, paths, file)
    ensures (exists d :: PolicyError(path, NewBad(d)) in ErrorsFor(VisitedAll(texts, files, paths), changes, allowlist))
       <==> IsOtherAddition(files, changes, path)
  {
    if d :| PolicyError(path, NewBad(d)) in ErrorsFor(VisitedAll(texts, files, paths), changes, allowlist) {
      ErrorIsOther(texts, files, paths, changes, allowlist, path, d);
    }
    if IsOtherAddition(files, changes, path) {
      var c :| c in changes && c.status == Added && c.path == path;
      OtherIsError(texts, files, paths, changes, allowlist, c);
    }
  }

  /** And for a new file without carriage returns: an error exactly if it carried the MIT license. */
  lemma MitErrorsAfterInserter(texts: HeaderTexts, files: Files, paths: seq<string>, changes: seq<Change>,
                               allowlist: set<string>, path: string)
    requires Readable(texts) && AllSupported(paths) && AllCovered(files, paths, changes)
    requires forall file :: !LeftOut(files, paths, file)
    requires AddedAs(changes, path) && IsSupported(Parts(path)) && Parts(path) in files && '\r' !in files[Parts(path)]
    ensures (exists d :: PolicyError(path, NewBad(d)) in ErrorsFor(VisitedAll(texts, files, paths), changes, allowlist))
       <==> WasMit(files, Parts(path))
  {
    ErrorsAfterInserter(texts, files, paths, changes, allowlist, path);
    KeepsOtherIsMit(files, Parts(path));
  }

  /** A path given to the tool is visited, whatever white space is around it. */
  lemma GivenIsVisited(paths: seq<string>, i: nat)
    requires i < |paths| && IsCandidate(Strip(paths[i]))
    ensures Visits(Unique(paths), Parts(Strip(paths[i]))) > 0
  {
    var p := Strip(paths[i]);
    UniqueIsExact(paths, p);
    var k :| 0 <= k < |Unique(paths)| && Unique(paths)[k] == p;
    VisitsPositive(Unique(paths), k);
  }
}
