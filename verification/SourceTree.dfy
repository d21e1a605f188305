/** The files of a source tree, and the inserter's run over a list of them. */
module SourceTree {
  import opened Options
  import opened Lists
  import opened Text
  import opened PyText
  import opened LeadingComment
  import opened LicenseHeader
  import opened LicenseInserter

  // ----- Paths -----

  const EXCLUDED_DIRS := {
    ".git", ".next", "node_modules", "dist", "dist-standalone", "build", "coverage", "deps", "deps_bak", "vendor"}

  function Strip(s: string): string {
    LStrip(RStrip(s))
  }

  function RStrip(s: string): string {
    if s != "" && IsPySpace(s[|s| - 1]) then RStrip(s[..|s| - 1]) else s
  }

  /** The names in a path that are not empty or a dot. */
  function Names(parts: seq<string>): seq<string> {
    if parts == [] then []
    else (if parts[0] == "" || parts[0] == "." then [] else [parts[0]]) + Names(parts[1..])
  }

  type File = seq<string>

  /** PurePosixPath.parts: a root, which two slashes make a different one, and the names. */
  function Parts(path: string): File {
    var names := Names(Split(path, '/'));
    if !HasPrefix(path, "/") then names
    else if HasPrefix(path, "//") && !HasPrefix(path, "///") then ["//"] + names
    else ["/"] + names
  }

  function LastDot(name: string): Option<nat> {
    if name == "" then None
    else if name[|name| - 1] == '.' then Some(|name| - 1)
    else LastDot(name[..|name| - 1])
  }

  /** PurePath.suffix: none for a dot at either end of the name. */
  function SuffixOfName(name: string): string {
    var dot := LastDot(name);
    if dot.Some? && 0 < dot.value < |name| - 1 then name[dot.value..] else ""
  }

  function Suffix(file: File): string {
    if file == [] then "" else Lower(SuffixOfName(file[|file| - 1]))
  }

  predicate IsSupported(file: File) {
    Suffix(file) in SUPPORTED_EXTENSIONS && forall part :: part in file ==> part !in EXCLUDED_DIRS
  }

  // ----- Which files to update -----

  predicate IsCandidate(path: string) {
    path != "" && IsSupported(Parts(path))
  }

  function Stripped(paths: seq<string>): seq<string> {
    if paths == [] then []
    else
      var init, path := Stripped(paths[..|paths| - 1]), Strip(paths[|paths| - 1]);
      if path == "" then init else init + [path]
  }

  function Supported(paths: seq<string>): seq<string> {
    if paths == [] then []
    else
      var init, path := Supported(paths[..|paths| - 1]), paths[|paths| - 1];
      if IsSupported(Parts(path)) then init + [path] else init
  }

  /** The supported paths in order of first mention, once each. */
  function Unique(paths: seq<string>): seq<string> {
    Supported(Dedup(Stripped(paths)))
  }

  lemma SupportedOfSnoc(paths: seq<string>, path: string)
    ensures Supported(paths + [path])
         == if IsSupported(Parts(path)) then Supported(paths) + [path] else Supported(paths)
  {
    assert (paths + [path])[..|paths|] == paths;
  }

  lemma StrippedOfNext(paths: seq<string>, i: nat)
    requires i < |paths|
    ensures var path := Strip(paths[i]);
            Stripped(paths[..i + 1]) == if path == "" then Stripped(paths[..i]) else Stripped(paths[..i]) + [path]
  {
    assert paths[..i + 1][..i] == paths[..i];
  }

  lemma UniqueOfSnoc(all: seq<string>, path: string)
    ensures Supported(Dedup(all + [path]))
         == Supported(Dedup(all)) + if path !in all && IsSupported(Parts(path)) then [path] else []
    ensures Set(all + [path]) == Set(all) + {path}
  {
    DedupOfSnoc(all, path);
    SupportedOfSnoc(Dedup(all), path);
  }

  /** One turn of the loop that collects the paths. */
  method AddPath(path: string, unique: seq<string>, seen: set<string>, ghost all: seq<string>)
      returns (unique': seq<string>, seen': set<string>)
    requires unique == Supported(Dedup(all)) && seen == Set(all)
    ensures var all' := if path == "" then all else all + [path];
            unique' == Supported(Dedup(all')) && seen' == Set(all')
  {
    UniqueOfSnoc(all, path);
    unique', seen' := unique, seen;
    if path == "" || path in seen {
      return;
    }
    seen' := seen + {path};
    if IsSupported(Parts(path)) {
      unique' := unique + [path];
    }
  }

  method UniquePaths(paths: seq<string>) returns (unique: seq<string>)
    ensures unique == Unique(paths)
  {
    unique := [];
    var seen: set<string> := {};
    for i := 0 to |paths|
      invariant unique == Supported(Dedup(Stripped(paths[..i]))) && seen == Set(Stripped(paths[..i]))
    {
      StrippedOfNext(paths, i);
      unique, seen := AddPath(Strip(paths[i]), unique, seen, Stripped(paths[..i]));
    }
    assert paths[..|paths|] == paths;
  }

  lemma {:induction false} SupportedSpec(paths: seq<string>)
    ensures forall p :: p in Supported(paths) <==> p in paths && IsSupported(Parts(p))
  {
    if paths != [] {
      var init := paths[..|paths| - 1];
      SupportedSpec(init);
      assert paths == init + [paths[|paths| - 1]];
    }
  }

  lemma {:induction false} StrippedSpec(paths: seq<string>, p: string)
    ensures p in Stripped(paths) <==> p != "" && exists i :: 0 <= i < |paths| && Strip(paths[i]) == p
  {
    if paths != [] {
      var n := |paths| - 1;
      StrippedSpec(paths[..n], p);
      assert forall i :: 0 <= i < n ==> paths[..n][i] == paths[i];
    }
  }

  lemma {:induction false} SupportedDistinct(paths: seq<string>)
    requires forall i, j :: 0 <= i < j < |paths| ==> paths[i] != paths[j]
    ensures forall i, j :: 0 <= i < j < |Supported(paths)| ==> Supported(paths)[i] != Supported(paths)[j]
  {
    if paths != [] {
      var init := paths[..|paths| - 1];
      SupportedDistinct(init);
      SupportedSpec(init);
    }
  }

  /** The list is exact: the stripped, supported paths, once each. */
  lemma UniqueIsExact(paths: seq<string>, p: string)
    ensures p in Unique(paths) <==> IsCandidate(p) && exists i :: 0 <= i < |paths| && Strip(paths[i]) == p
    ensures forall i, j :: 0 <= i < j < |Unique(paths)| ==> Unique(paths)[i] != Unique(paths)[j]
  {
    StrippedSpec(paths, p);
    DedupSpec(Stripped(paths));
    SupportedSpec(Dedup(Stripped(paths)));
    SupportedDistinct(Dedup(Stripped(paths)));
  }

  // ----- One file -----

  type Files = map<File, string>

  /** The contents of a file as the byte order mark, if there is one, and the text. */
  function MarkOf(content: string): string {
    if HasPrefix(content, [BOM]) then [BOM] else ""
  }

  function TextOf(content: string): string {
    if HasPrefix(content, [BOM]) then content[1..] else content
  }

  datatype Outcome = SkippedMissing | SkippedApache | SkippedMit | Updated

  function OutcomeOf(files: Files, file: File): Outcome {
    if file !in files then SkippedMissing
    else match Detect(TextOf(files[file]), Suffix(file))
      case Apache => SkippedApache
      case Mit => SkippedMit
      case NoLicense => Updated
  }

  /** The contents after one visit of the file. */
  function Visited(texts: HeaderTexts, content: string, suffix: string): string {
    if suffix in SUPPORTED_EXTENSIONS && Detect(TextOf(content), suffix) == NoLicense then
      MarkOf(content) + Licensed(texts, TextOf(content), suffix)
    else content
  }

  function VisitedFile(texts: HeaderTexts, files: Files, file: File): Files {
    if file in files then files[file := Visited(texts, files[file], Suffix(file))] else files
  }

  predicate AllSupported(paths: seq<string>) {
    forall i :: 0 <= i < |paths| ==> IsSupported(Parts(paths[i]))
  }

  function VisitedAll(texts: HeaderTexts, files: Files, paths: seq<string>): Files {
    if paths == [] then files
    else VisitedFile(texts, VisitedAll(texts, files, paths[..|paths| - 1]), Parts(paths[|paths| - 1]))
  }

  /** What the run says of each path; a dry run leaves the files alone. */
  function Outcomes(texts: HeaderTexts, files: Files, paths: seq<string>, dryRun: bool): seq<Outcome> {
    if paths == [] then []
    else
      var init := paths[..|paths| - 1];
      Outcomes(texts, files, init, dryRun)
      + [OutcomeOf(if dryRun then files else VisitedAll(texts, files, init), Parts(paths[|paths| - 1]))]
  }

  lemma UniqueIsSupported(paths: seq<string>)
    ensures AllSupported(Unique(paths))
  {
    forall i | 0 <= i < |Unique(paths)| ensures IsSupported(Parts(Unique(paths)[i])) {
      UniqueIsExact(paths, Unique(paths)[i]);
    }
  }

  // ----- The run -----

  function CountUpdated(outcomes: seq<Outcome>): nat {
    if outcomes == [] then 0
    else CountUpdated(outcomes[..|outcomes| - 1]) + if outcomes[|outcomes| - 1] == Updated then 1 else 0
  }

  lemma CountOfSnoc(outcomes: seq<Outcome>, o: Outcome)
    ensures CountUpdated(outcomes + [o]) == CountUpdated(outcomes) + if o == Updated then 1 else 0
  {
    assert (outcomes + [o])[..|outcomes|] == outcomes;
  }

  lemma VisitedOfNext(texts: HeaderTexts, files: Files, paths: seq<string>, i: nat)
    requires i < |paths|
    ensures VisitedAll(texts, files, paths[..i + 1])
         == VisitedFile(texts, VisitedAll(texts, files, paths[..i]), Parts(paths[i]))
  {
    var front := paths[..i + 1];
    assert front[..i] == paths[..i] && front[i] == paths[i];
  }

  lemma OutcomesOfNext(texts: HeaderTexts, files: Files, paths: seq<string>, i: nat, dryRun: bool)
    requires i < |paths|
    ensures Outcomes(texts, files, paths[..i + 1], dryRun)
         == Outcomes(texts, files, paths[..i], dryRun)
            + [OutcomeOf(if dryRun then files else VisitedAll(texts, files, paths[..i]), Parts(paths[i]))]
  {
    var front := paths[..i + 1];
    assert front[..i] == paths[..i] && front[i] == paths[i];
  }

  class Tree {
    const texts: HeaderTexts
    var files: Files

    /** The whole run: the list of paths, then the loop over it. */
    method Run(paths: seq<string>, dryRun: bool) returns (outcomes: seq<Outcome>, updated: nat, skipped: nat)
      modifies this
      ensures AllSupported(Unique(paths))
      ensures files == if dryRun then old(files) else VisitedAll(texts, old(files), Unique(paths))
      ensures outcomes == Outcomes(texts, old(files), Unique(paths), dryRun)
      ensures updated + skipped == |Unique(paths)| && updated == CountUpdated(outcomes)
    {
      var unique := UniquePaths(paths);
      UniqueIsSupported(paths);
      outcomes, updated, skipped := AddHeaders(unique, dryRun);
    }

    /** The main loop: adds the header to the files without a license and counts. In a dry run
        it only says what it would do. */
    method AddHeaders(paths: seq<string>, dryRun: bool) returns (outcomes: seq<Outcome>, updated: nat, skipped: nat)
      requires AllSupported(paths)
      modifies this
      ensures files == if dryRun then old(files) else VisitedAll(texts, old(files), paths)
      ensures outcomes == Outcomes(texts, old(files), paths, dryRun)
      ensures updated + skipped == |paths| && updated == CountUpdated(outcomes)
    {
      outcomes, updated, skipped := [], 0, 0;
      for i := 0 to |paths|
        invariant files == if dryRun then old(files) else VisitedAll(texts, old(files), paths[..i])
        invariant outcomes == Outcomes(texts, old(files), paths[..i], dryRun)
        invariant updated + skipped == i && updated == CountUpdated(outcomes)
      {
        VisitedOfNext(texts, old(files), paths, i);
        OutcomesOfNext(texts, old(files), paths, i, dryRun);
        var outcome := AddHeader(Parts(paths[i]), dryRun);
        CountOfSnoc(outcomes, outcome);
        outcomes := outcomes + [outcome];
        if outcome == Updated {
          updated := updated + 1;
        } else {
          skipped := skipped + 1;
        }
      }
      assert paths[..|paths|] == paths;
    }

    /** One turn of the loop. */
    method AddHeader(file: File, dryRun: bool) returns (outcome: Outcome)
      requires IsSupported(file)
      modifies this
      ensures outcome == OutcomeOf(old(files), file)
      ensures files == if dryRun then old(files) else VisitedFile(texts, old(files), file)
    {
      if file !in files {
        return SkippedMissing;
      }
      var mark, text := MarkOf(files[file]), TextOf(files[file]);
      var comment := ExtractLeadingComment(text, Suffix(file));
      match Judge(comment) {
        case Apache =>
          return SkippedApache;
        case Mit =>
          return SkippedMit;
        case NoLicense =>
      }
      var header := HeaderFor(texts, Suffix(file)).value;
      var licensed := InsertHeader(text, header, Suffix(file));
      if !dryRun {
        files := files[file := mark + licensed];
      }
      return Updated;
    }
  }
}
