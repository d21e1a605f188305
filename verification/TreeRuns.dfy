/** What runs of the inserter leave in the tree, whatever spellings of a path they are given. */
module TreeRuns {
  import opened Text
  import opened LeadingComment
  import opened LicenseHeader
  import opened LicenseInserter
  import opened SourceTree

  // ----- One file -----

  function Iterate<T>(f: T -> T, x: T, n: nat): T {
    if n == 0 then x else f(Iterate(f, x, n - 1))
  }

  lemma {:induction false} IterateSettles<T>(f: T -> T, x: T, n: nat)
    requires n >= 1 && f(f(f(x))) == f(f(x))
    ensures Iterate(f, x, n) == if n == 1 || f(f(x)) == f(x) then f(x) else f(f(x))
  {
    if n > 1 {
      IterateSettles(f, x, n - 1);
    }
  }

  function Visit(texts: HeaderTexts, suffix: string): string -> string {
    content => Visited(texts, content, suffix)
  }

  /** The contents after some visits. */
  function Times(texts: HeaderTexts, content: string, suffix: string, n: nat): string {
    Iterate(Visit(texts, suffix), content, n)
  }

  /** A file whose first visit leaves it without a license that can be read. */
  predicate NeedsTwo(content: string, suffix: string) {
    Detect(TextOf(content), suffix) == NoLicense && Glued(TextOf(content), suffix)
  }

  lemma BeforeStart(texts: HeaderTexts, text: string, suffix: string)
    requires suffix in SUPPORTED_EXTENSIONS && Readable(texts)
    requires text == "" || text[0] != BOM
    ensures var r := Licensed(texts, text, suffix); r != "" && r[0] != BOM
  {
    var before := Before(text, suffix);
    var header := HeaderFor(texts, suffix).value;
    assert header[0] == '/' || header[0] == '#' by { assert "/*\n *"[0] == '/' && "# "[0] == '#'; }
    if before == "" {
      assert Licensed(texts, text, suffix)[0] == header[0];
    } else {
      assert Licensed(texts, text, suffix)[0] == before[0];
      if HasPrefix(text, "#!") {
        ShebangStart(text);
        assert "#!"[0] == '#';
      } else {
        PrefixAndRest(text);
      }
    }
  }

  /** The byte order mark stays where it was. */
  lemma TextOfVisited(texts: HeaderTexts, content: string, suffix: string)
    requires suffix in SUPPORTED_EXTENSIONS && Readable(texts)
    requires Detect(TextOf(content), suffix) == NoLicense
    ensures var content' := Visited(texts, content, suffix);
            TextOf(content') == Licensed(texts, TextOf(content), suffix) && MarkOf(content') == MarkOf(content)
  {
    var licensed := Licensed(texts, TextOf(content), suffix);
    if HasPrefix(content, [BOM]) {
      assert ([BOM] + licensed)[1..] == licensed;
    } else {
      assert HasPrefix(content, [BOM]) == (content != "" && content[0] == BOM);
      BeforeStart(texts, content, suffix);
      assert "" + licensed == licensed;
    }
  }

  /** What a visit makes of the license that is read. */
  lemma DetectVisited(texts: HeaderTexts, content: string, suffix: string)
    requires suffix in SUPPORTED_EXTENSIONS && Readable(texts)
    ensures var content' := Visited(texts, content, suffix);
            && Detect(TextOf(content'), suffix)
               == (if Detect(TextOf(content), suffix) == NoLicense
                   then if Glued(TextOf(content), suffix) then NoLicense else Apache
                   else Detect(TextOf(content), suffix))
            && !NeedsTwo(content', suffix)
            && (Detect(TextOf(content), suffix) != NoLicense ==> content' == content)
  {
    if Detect(TextOf(content), suffix) == NoLicense {
      TextOfVisited(texts, content, suffix);
      InsertedReadsApacheIff(texts, TextOf(content), suffix);
      if Glued(TextOf(content), suffix) {
        GluedOnce(texts, TextOf(content), suffix);
      }
    }
  }

  lemma SecondVisit(texts: HeaderTexts, content: string, suffix: string)
    requires suffix in SUPPORTED_EXTENSIONS && Readable(texts)
    ensures var once := Visited(texts, content, suffix);
            var twice := Visited(texts, once, suffix);
            && (!NeedsTwo(content, suffix) ==> twice == once)
            && Visited(texts, twice, suffix) == twice
  {
    DetectVisited(texts, content, suffix);
    DetectVisited(texts, Visited(texts, content, suffix), suffix);
    DetectVisited(texts, Visited(texts, Visited(texts, content, suffix), suffix), suffix);
  }

  /** From the second visit on nothing changes, and from the first if the file does not need two. */
  lemma VisitsSettle(texts: HeaderTexts, content: string, suffix: string, n: nat)
    requires suffix in SUPPORTED_EXTENSIONS && Readable(texts) && n >= 1
    ensures var once := Visited(texts, content, suffix);
            Times(texts, content, suffix, n)
            == if n == 1 || !NeedsTwo(content, suffix) then once else Visited(texts, once, suffix)
  {
    SecondVisit(texts, content, suffix);
    IterateSettles(Visit(texts, suffix), content, n);
  }

  /** The license that is read after some visits. */
  lemma DetectAfter(texts: HeaderTexts, content: string, suffix: string, n: nat)
    requires suffix in SUPPORTED_EXTENSIONS && Readable(texts) && n >= 1
    ensures Detect(TextOf(Times(texts, content, suffix, n)), suffix)
         == if Detect(TextOf(content), suffix) == Mit then Mit
            else if NeedsTwo(content, suffix) && n == 1 then NoLicense
            else Apache
  {
    assert Times(texts, content, suffix, 0) == content;
    VisitsSettle(texts, content, suffix, n);
    DetectVisited(texts, content, suffix);
    DetectVisited(texts, Visited(texts, content, suffix), suffix);
  }

  // ----- All files -----

  /** How often a list of paths leads to a file. */
  function Visits(paths: seq<string>, file: File): nat {
    if paths == [] then 0
    else Visits(paths[..|paths| - 1], file) + if Parts(paths[|paths| - 1]) == file then 1 else 0
  }

  lemma {:induction false} VisitsPositive(paths: seq<string>, i: nat)
    requires i < |paths|
    ensures Visits(paths, Parts(paths[i])) > 0
  {
    if i < |paths| - 1 {
      VisitsPositive(paths[..|paths| - 1], i);
    }
  }

  lemma VisitedFileAt(texts: HeaderTexts, files: Files, last: File, file: File)
    requires file in files
    ensures file in VisitedFile(texts, files, last)
    ensures VisitedFile(texts, files, last)[file]
         == if file == last then Visited(texts, files[file], Suffix(file)) else files[file]
  {
  }

  lemma {:induction false} RunKeepsFiles(texts: HeaderTexts, files: Files, paths: seq<string>, file: File)
    requires AllSupported(paths)
    ensures file in VisitedAll(texts, files, paths) <==> file in files
    ensures Visits(paths, file) > 0 ==> IsSupported(file)
  {
    if paths != [] {
      RunKeepsFiles(texts, files, paths[..|paths| - 1], file);
    }
  }

  /** Each file ends up as its own visits leave it; no file appears or goes. */
  lemma {:induction false} RunAt(texts: HeaderTexts, files: Files, paths: seq<string>, file: File)
    requires AllSupported(paths) && file in files
    ensures file in VisitedAll(texts, files, paths)
    ensures Visits(paths, file) == 0 ==> VisitedAll(texts, files, paths)[file] == files[file]
    ensures Visits(paths, file) > 0 ==>
              && IsSupported(file)
              && VisitedAll(texts, files, paths)[file] == Times(texts, files[file], Suffix(file), Visits(paths, file))
  {
    RunKeepsFiles(texts, files, paths, file);
    if paths != [] {
      var init, last := paths[..|paths| - 1], Parts(paths[|paths| - 1]);
      RunAt(texts, files, init, file);
      VisitedFileAt(texts, VisitedAll(texts, files, init), last, file);
      if last == file {
        assert Times(texts, files[file], Suffix(file), Visits(paths, file))
            == Visited(texts, Times(texts, files[file], Suffix(file), Visits(init, file)), Suffix(file));
      }
    }
  }

  /** A file that a run leaves without a license although it found none there. */
  predicate LeftOut(files: Files, paths: seq<string>, file: File) {
    file in files && Visits(paths, file) == 1 && NeedsTwo(files[file], Suffix(file))
  }

  lemma DifferAt(a: Files, b: Files) returns (file: File)
    requires a != b
    ensures (file in a) != (file in b) || (file in a && file in b && a[file] != b[file])
  {
    if f :| f in a.Keys && (f !in b.Keys || a[f] != b[f]) {
      file := f;
    } else {
      file :| file in b.Keys && file !in a.Keys;
    }
  }

  /** Running the inserter again changes nothing, exactly if it left out no file. */
  lemma SecondRunIsIdleIff(texts: HeaderTexts, files: Files, paths: seq<string>)
    requires AllSupported(paths) && Readable(texts)
    ensures var once := VisitedAll(texts, files, paths);
            VisitedAll(texts, once, paths) == once <==> forall file :: !LeftOut(files, paths, file)
  {
    var once := VisitedAll(texts, files, paths);
    var twice := VisitedAll(texts, once, paths);
    if file :| LeftOut(files, paths, file) {
      RunKeepsFiles(texts, files, paths, file);
      SecondRunAt(texts, files, paths, file);
    } else if twice != once {
      var file := DifferAt(twice, once);
      RunKeepsFiles(texts, once, paths, file);
      SecondRunAt(texts, files, paths, file);
    }
  }

  lemma SecondRunAt(texts: HeaderTexts, files: Files, paths: seq<string>, file: File)
    requires AllSupported(paths) && Readable(texts)
    requires file in VisitedAll(texts, files, paths)
    ensures var once := VisitedAll(texts, files, paths);
            && file in files && file in VisitedAll(texts, once, paths)
            && (VisitedAll(texts, once, paths)[file] == once[file] <==> !LeftOut(files, paths, file))
  {
    var once := VisitedAll(texts, files, paths);
    RunKeepsFiles(texts, files, paths, file);
    RunAt(texts, files, paths, file);
    RunAt(texts, once, paths, file);
    var n := Visits(paths, file);
    if n > 0 {
      VisitedAgain(texts, files[file], Suffix(file), n);
    }
  }

  lemma VisitedAgain(texts: HeaderTexts, content: string, suffix: string, n: nat)
    requires suffix in SUPPORTED_EXTENSIONS && Readable(texts) && n >= 1
    ensures var content' := Times(texts, content, suffix, n);
            Times(texts, content', suffix, n) == content' <==> !(n == 1 && NeedsTwo(content, suffix))
  {
    var content' := Times(texts, content, suffix, n);
    DetectAfter(texts, content, suffix, n);
    DetectAfter(texts, content', suffix, n);
    DetectVisited(texts, content', suffix);
    VisitsSettle(texts, content', suffix, n);
    assert Times(texts, content, suffix, 0) == content;
    assert Times(texts, content', suffix, 0) == content';
    if n == 1 {
      DetectVisited(texts, content, suffix);
    } else {
      VisitsSettle(texts, content, suffix, n);
      DetectVisited(texts, Visited(texts, content, suffix), suffix);
    }
  }

  /** A third run never changes anything. */
  lemma ThirdRunIsIdle(texts: HeaderTexts, files: Files, paths: seq<string>)
    requires AllSupported(paths) && Readable(texts)
    ensures var twice := VisitedAll(texts, VisitedAll(texts, files, paths), paths);
            VisitedAll(texts, twice, paths) == twice
  {
    var once := VisitedAll(texts, files, paths);
    forall file ensures !LeftOut(once, paths, file) {
      RunKeepsFiles(texts, files, paths, file);
      if file in files && Visits(paths, file) == 1 {
        RunAt(texts, files, paths, file);
        assert Times(texts, files[file], Suffix(file), 0) == files[file];
        DetectVisited(texts, files[file], Suffix(file));
      }
    }
    SecondRunIsIdleIff(texts, once, paths);
  }

  // ----- What the run says -----

  /** The mark and the text are the contents. */
  lemma MarkAndText(content: string)
    ensures MarkOf(content) + TextOf(content) == content
    ensures MarkOf(content) == [BOM] <==> content != "" && content[0] == BOM
    ensures MarkOf(content) == "" || MarkOf(content) == [BOM]
  {
  }

  lemma VisitChangesIff(texts: HeaderTexts, content: string, suffix: string)
    requires suffix in SUPPORTED_EXTENSIONS && Readable(texts)
    ensures Visited(texts, content, suffix) != content <==> Detect(TextOf(content), suffix) == NoLicense
  {
    DetectVisited(texts, content, suffix);
  }

  lemma PutDiffersIff(files: Files, file: File, content: string)
    requires file in files
    ensures files[file := content] != files <==> content != files[file]
  {
    if content == files[file] {
      assert files[file := content] == files;
    } else {
      assert files[file := content][file] == content;
    }
  }

  /** A file is said to be updated exactly if its visit changes it. */
  lemma UpdatedIff(texts: HeaderTexts, files: Files, file: File)
    requires IsSupported(file) && Readable(texts)
    ensures OutcomeOf(files, file) == Updated <==> VisitedFile(texts, files, file) != files
  {
    if file in files {
      VisitChangesIff(texts, files[file], Suffix(file));
      PutDiffersIff(files, file, Visited(texts, files[file], Suffix(file)));
    }
  }

  /** The other things that are said of it. */
  lemma SkippedIff(files: Files, file: File)
    ensures OutcomeOf(files, file) == SkippedMissing <==> file !in files
    ensures OutcomeOf(files, file) == SkippedApache <==>
              file in files && Detect(TextOf(files[file]), Suffix(file)) == Apache
    ensures OutcomeOf(files, file) == SkippedMit <==>
              file in files && Detect(TextOf(files[file]), Suffix(file)) == Mit
  {
  }

  function UpdatedAt(outcomes: seq<Outcome>): set<int> {
    set i | 0 <= i < |outcomes| && outcomes[i] == Updated
  }

  /** The counter counts the files that are said to be updated. */
  lemma {:induction false} CountIsNumber(outcomes: seq<Outcome>)
    ensures CountUpdated(outcomes) == |UpdatedAt(outcomes)|
  {
    if outcomes == [] {
      assert UpdatedAt(outcomes) == {};
    } else {
      var n := |outcomes| - 1;
      CountIsNumber(outcomes[..n]);
      var early := UpdatedAt(outcomes[..n]);
      assert UpdatedAt(outcomes) == if outcomes[n] == Updated then early + {n} else early;
    }
  }
}
