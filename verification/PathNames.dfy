/** Which files the license scripts take up, from the names in a path. */
module PathNames {
  import opened Options
  import opened Text
  import opened PyText
  import opened LicenseHeader
  import opened LicenseInserter
  import opened SourceTree

  // ----- Suffixes -----

  /** A name with something before its last dot and something behind it. */
  ghost predicate Dotted(name: string, stem: string, ext: string) {
    stem != "" && ext != "" && '.' !in ext && name == stem + "." + ext
  }

  lemma {:induction false} LastDotAt(stem: string, ext: string)
    requires '.' !in ext
    ensures LastDot(stem + "." + ext) == Some(|stem|)
  {
    var name := stem + "." + ext;
    if ext == "" {
      assert name[|name| - 1] == '.';
    } else {
      var init := ext[..|ext| - 1];
      LastDotAt(stem, init);
      assert name[|name| - 1] == ext[|ext| - 1] && ext[|ext| - 1] in ext;
      assert name[..|name| - 1] == stem + "." + init;
    }
  }

  lemma {:induction false} LastDotSpec(name: string)
    ensures match LastDot(name)
            case None => '.' !in name
            case Some(i) => i < |name| && name[i] == '.' && '.' !in name[i + 1..]
  {
    if name != "" && name[|name| - 1] != '.' {
      var n := |name| - 1;
      var init := name[..n];
      LastDotSpec(init);
      assert name == init + [name[n]];
      match LastDot(init)
      case None =>
      case Some(i) => assert name[i + 1..] == init[i + 1..] + [name[n]];
    }
  }

  /** The suffix is what starts with the last dot, */
  lemma SuffixOfDotted(name: string, stem: string, ext: string)
    requires Dotted(name, stem, ext)
    ensures SuffixOfName(name) == "." + ext
  {
    LastDotAt(stem, ext);
    assert name[|stem|..] == "." + ext;
  }

  /** and there is none for a name without a dot, or with its last dot at either end. */
  lemma NoSuffixIff(name: string)
    ensures SuffixOfName(name) == "" <==> !exists stem, ext :: Dotted(name, stem, ext)
  {
    if stem, ext :| Dotted(name, stem, ext) {
      SuffixOfDotted(name, stem, ext);
    }
    if SuffixOfName(name) != "" {
      LastDotSpec(name);
      var i := LastDot(name).value;
      assert name == name[..i] + "." + name[i + 1..];
      assert Dotted(name, name[..i], name[i + 1..]);
    }
  }

  // ----- The names in a path -----

  /** A name that a path can be made of; ".." is one of them, which is not resolved. */
  predicate IsPart(name: string) {
    name != "" && name != "." && '/' !in name
  }

  ghost predicate AllParts(names: seq<string>) {
    forall i :: 0 <= i < |names| ==> IsPart(names[i])
  }

  lemma {:induction false} NamesOfParts(names: seq<string>)
    requires AllParts(names)
    ensures Names(names) == names
  {
    if names != [] {
      NamesOfParts(names[1..]);
    }
  }

  lemma NamesOfCons(name: string, rest: seq<string>)
    ensures Names([name] + rest) == (if name == "" || name == "." then [] else [name]) + Names(rest)
  {
    assert ([name] + rest)[1..] == rest;
  }

  lemma InTurn<T>(a: seq<T>, b: seq<T>, c: seq<T>)
    ensures a + (b + c) == (a + b) + c
  {
  }

  lemma {:induction false} NamesOfConcat(a: seq<string>, b: seq<string>)
    ensures Names(a + b) == Names(a) + Names(b)
  {
    if a == [] {
      assert a + b == b;
    } else {
      var first, rest := a[0], a[1..];
      assert a == [first] + rest;
      InTurn([first], rest, b);
      NamesOfCons(first, rest);
      NamesOfCons(first, rest + b);
      NamesOfConcat(rest, b);
      InTurn(if first == "" || first == "." then [] else [first], Names(rest), Names(b));
    }
  }

  lemma JoinStart(names: seq<string>)
    requires names != [] && AllParts(names)
    ensures Join(names, '/') != "" && Join(names, '/')[0] != '/'
  {
    assert IsPart(names[0]) && names[0][0] in names[0];
  }

  lemma SplitParts(names: seq<string>)
    requires names != [] && AllParts(names)
    ensures Names(Split(Join(names, '/'), '/')) == names
  {
    assert FreeOf(names, '/');
    SplitOfJoin(names, '/');
    NamesOfParts(names);
  }

  lemma SplitSlashed(path: string)
    ensures Names(Split("/" + path, '/')) == Names(Split(path, '/'))
  {
    SplitOfConcat("", path, '/');
    assert "" + ['/'] + path == "/" + path;
    NamesOfCons("", Split(path, '/'));
  }

  /** The parts of a path are the names joined in it, */
  lemma PartsOfJoin(names: seq<string>)
    requires names != [] && AllParts(names)
    ensures Parts(Join(names, '/')) == names
  {
    var path := Join(names, '/');
    JoinStart(names);
    SplitParts(names);
    assert !HasPrefix(path, "/") by { assert "/"[0] == '/'; }
  }

  /** below the root if it starts with a slash, or with two, */
  lemma PartsOfRooted(names: seq<string>)
    requires names != [] && AllParts(names)
    ensures Parts("/" + Join(names, '/')) == ["/"] + names
    ensures Parts("//" + Join(names, '/')) == ["//"] + names
  {
    JoinStart(names);
    SplitParts(names);
    OneSlash(Join(names, '/'));
    TwoSlashes(Join(names, '/'));
  }

  lemma OneSlash(path: string)
    requires path != "" && path[0] != '/'
    ensures Parts("/" + path) == ["/"] + Names(Split(path, '/'))
  {
    SplitSlashed(path);
    RootOf(path);
  }

  lemma TwoSlashes(path: string)
    requires path != "" && path[0] != '/'
    ensures Parts("//" + path) == ["//"] + Names(Split(path, '/'))
  {
    SplitSlashed(path);
    SplitSlashed("/" + path);
    assert "/" + ("/" + path) == "//" + path;
    RootOf(path);
  }

  lemma RootOf(path: string)
    requires path != "" && path[0] != '/'
    ensures HasPrefix("/" + path, "/") && !HasPrefix("/" + path, "//")
    ensures HasPrefix("//" + path, "/") && HasPrefix("//" + path, "//") && !HasPrefix("//" + path, "///")
  {
    assert ("/" + path)[1] == path[0] != "//"[1];
    assert ("//" + path)[2] == path[0] != "///"[2];
  }

  lemma SameStart(a: string, b: string, c: string)
    requires a != "" && a[|a| - 1] != '/'
    ensures HasPrefix(a + b, "/") == HasPrefix(a + c, "/")
    ensures HasPrefix(a + b, "//") == HasPrefix(a + c, "//")
    ensures HasPrefix(a + b, "///") == HasPrefix(a + c, "///")
  {
    assert "/"[0] == '/' && "//"[0] == "//"[1] == '/' && "///"[0] == "///"[1] == "///"[2] == '/';
  }

  lemma PartsByNames(a: string, b: string, c: string)
    requires a != "" && a[|a| - 1] != '/'
    requires Names(Split(a + b, '/')) == Names(Split(a + c, '/'))
    ensures Parts(a + b) == Parts(a + c)
  {
    SameStart(a, b, c);
  }

  /** and a doubled slash, a single dot or a slash at the end adds nothing. */
  lemma RedundantParts(a: string, b: string)
    requires a != "" && a[|a| - 1] != '/'
    ensures Parts(a + ("/" + ("/" + b))) == Parts(a + ("/" + b)) == Parts(a + ("/" + ("." + ("/" + b))))
    ensures Parts(a + "/") == Parts(a)
  {
    DoubledSlash(a, b);
    SingleDot(a, b);
    NothingBehind(a);
    PartsByNames(a, "/" + b, "/" + ("/" + b));
    PartsByNames(a, "/" + b, "/" + ("." + ("/" + b)));
    assert a + "" == a;
    PartsByNames(a, "/", "");
  }

  lemma DoubledSlash(a: string, b: string)
    ensures Names(Split(a + ("/" + ("/" + b)), '/')) == Names(Split(a + ("/" + b), '/'))
  {
    SplitJoined(a, b);
    SplitJoined(a, "/" + b);
    SplitSlashed(b);
  }

  lemma SingleDot(a: string, b: string)
    ensures Names(Split(a + ("/" + ("." + ("/" + b))), '/')) == Names(Split(a + ("/" + b), '/'))
  {
    NoNames();
    SplitJoined(a, b);
    SplitJoined(a, "." + ("/" + b));
    SplitJoined(".", b);
    NothingBefore(Names(Split(b, '/')));
  }

  lemma NothingBefore(names: seq<string>)
    ensures [] + names == names == names + []
  {
  }

  lemma NothingBehind(a: string)
    ensures Names(Split(a + "/", '/')) == Names(Split(a, '/'))
  {
    NoNames();
    SplitJoined(a, "");
    assert "/" + "" == "/";
    NothingBefore(Names(Split(a, '/')));
  }

  lemma NoNames()
    ensures Names(Split("", '/')) == [] && Names(Split(".", '/')) == []
  {
    SplitAfterPart(".", "", '/');
    NamesOfCons("", []);
    NamesOfCons(".", []);
    assert [""] + [] == [""] && ["."] + [] == ["."];
  }

  lemma SplitJoined(a: string, b: string)
    ensures Names(Split(a + ("/" + b), '/')) == Names(Split(a, '/')) + Names(Split(b, '/'))
  {
    SplitOfConcat(a, b, '/');
    assert a + ['/'] + b == a + ("/" + b);
    NamesOfConcat(Split(a, '/'), Split(b, '/'));
  }

  // ----- Which paths are taken up -----

  predicate Excluded(name: string) {
    || name == ".git" || name == ".next" || name == "node_modules"
    || name == "dist" || name == "dist-standalone" || name == "build" || name == "coverage"
    || name == "deps" || name == "deps_bak" || name == "vendor"
  }

  predicate TakesBlock(suffix: string) {
    || suffix == ".go" || suffix == ".ts" || suffix == ".tsx"
    || suffix == ".js" || suffix == ".jsx" || suffix == ".mjs" || suffix == ".cjs"
  }

  predicate TakesHash(suffix: string) {
    suffix == ".py" || suffix == ".sh" || suffix == ".yml" || suffix == ".yaml"
  }

  /** A name whose suffix, in lower case, is one of those that take a header. */
  ghost predicate IsSource(name: string) {
    exists stem, ext :: Dotted(name, stem, ext) && (TakesBlock(Lower("." + ext)) || TakesHash(Lower("." + ext)))
  }

  lemma SuffixIsSupportedIff(name: string)
    ensures Lower(SuffixOfName(name)) in SUPPORTED_EXTENSIONS <==> IsSource(name)
  {
    if stem, ext :| Dotted(name, stem, ext) && (TakesBlock(Lower("." + ext)) || TakesHash(Lower("." + ext))) {
      SuffixOfDotted(name, stem, ext);
    }
    if Lower(SuffixOfName(name)) in SUPPORTED_EXTENSIONS {
      assert SuffixOfName(name) != "";
      NoSuffixIff(name);
      var stem, ext :| Dotted(name, stem, ext);
      SuffixOfDotted(name, stem, ext);
    }
  }

  lemma ExcludedIff(name: string)
    ensures name in EXCLUDED_DIRS <==> Excluded(name)
  {
  }

  /** The last name is that of a source file, and none is excluded. */
  ghost predicate IsSourceFile(file: File) {
    file != [] && IsSource(file[|file| - 1]) && forall name :: name in file ==> !Excluded(name)
  }

  lemma FileIsSupportedIff(file: File)
    requires file != []
    ensures IsSupported(file) <==> IsSourceFile(file)
  {
    SuffixIsSupportedIff(file[|file| - 1]);
    assert forall name :: name in EXCLUDED_DIRS <==> Excluded(name) by {
      forall name ensures name in EXCLUDED_DIRS <==> Excluded(name) { ExcludedIff(name); }
    }
  }

  /** A path is taken up exactly if it is that of a source file and is given, with or without white
      space around it. */
  lemma TakenUpIff(paths: seq<string>, names: seq<string>)
    requires names != [] && AllParts(names)
    ensures Join(names, '/') in Unique(paths) <==>
              IsSourceFile(names) && exists i :: 0 <= i < |paths| && Strip(paths[i]) == Join(names, '/')
  {
    UniqueIsExact(paths, Join(names, '/'));
    PartsOfJoin(names);
    FileIsSupportedIff(names);
    JoinStart(names);
  }

  // ----- White space around a path -----

  lemma {:induction false} RStripPadded(s: string, behind: string)
    requires AllPySpace(behind) && s != "" && !IsPySpace(s[|s| - 1])
    ensures RStrip(s + behind) == s
  {
    if behind == "" {
      assert s + behind == s;
    } else {
      var n := |behind| - 1;
      RStripPadded(s, behind[..n]);
      assert (s + behind)[..|s + behind| - 1] == s + behind[..n];
    }
  }

  lemma StripPadded(before: string, s: string, behind: string)
    requires AllPySpace(before) && AllPySpace(behind)
    requires s != "" && !IsPySpace(s[0]) && !IsPySpace(s[|s| - 1])
    ensures Strip(before + s + behind) == s
  {
    RStripPadded(before + s, behind);
    LStripOfPadded(before, s);
  }

  /** So a source file whose path is given, with white space around it, is in the list. */
  lemma GivenIsTakenUp(paths: seq<string>, i: nat, names: seq<string>, before: string, behind: string)
    requires names != [] && AllParts(names) && IsSourceFile(names)
    requires var path := Join(names, '/'); path != "" && !IsPySpace(path[0]) && !IsPySpace(path[|path| - 1])
    requires AllPySpace(before) && AllPySpace(behind)
    requires i < |paths| && paths[i] == before + Join(names, '/') + behind
    ensures Join(names, '/') in Unique(paths)
  {
    StripPadded(before, Join(names, '/'), behind);
    TakenUpIff(paths, names);
  }

  // ----- The header of a file -----

  lemma HeaderOfSuffix(texts: HeaderTexts, suffix: string)
    ensures HeaderFor(texts, suffix)
         == if TakesBlock(suffix) then Some(texts.block) else if TakesHash(suffix) then Some(texts.hash) else None
  {
  }

  lemma SuffixOfLast(dir: File, name: string)
    ensures Suffix(dir + [name]) == Lower(SuffixOfName(name))
  {
  }

  /** The kind of header goes by the suffix. */
  lemma HeaderGoesBySuffix(texts: HeaderTexts, dir: File, name: string, stem: string, ext: string)
    requires Dotted(name, stem, ext)
    ensures HeaderFor(texts, Suffix(dir + [name]))
         == if TakesBlock(Lower("." + ext)) then Some(texts.block)
            else if TakesHash(Lower("." + ext)) then Some(texts.hash)
            else None
  {
    SuffixOfDotted(name, stem, ext);
    SuffixOfLast(dir, name);
    HeaderOfSuffix(texts, Lower("." + ext));
  }
}
