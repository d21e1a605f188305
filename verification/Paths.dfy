/** Slash-separated paths, as Go's path/filepath treats them on Unix.

    A path is the list of its parts, that is, of what a split on '/' returns: "/a//b" is
    ["", "a", "", "b"] and "a/b" is ["a", "b"]. A file is what such a path denotes for a
    process in some working directory: the list of names below the root that
    filepath.Abs computes lexically. */
module Paths {
  import opened Text

  type Path = parts: seq<string> | parts != [] witness [""]
  type File = seq<string>

  predicate IsName(part: string) {
    part != "" && part != "." && part != ".."
  }

  ghost predicate CleanFile(f: File) {
    forall i :: 0 <= i < |f| ==> IsName(f[i])
  }

  /** filepath.Clean of a rooted path. */
  function Clean(parts: seq<string>): (f: File)
    ensures CleanFile(f)
  {
    if parts == [] then []
    else
      var init, part := Clean(parts[..|parts| - 1]), parts[|parts| - 1];
      if part == "" || part == "." then init
      else if part == ".." then if init == [] then [] else init[..|init| - 1]
      else init + [part]
  }

  predicate IsAbs(p: Path) {
    |p| >= 2 && p[0] == ""
  }

  /** filepath.Abs, for a process whose working directory is cwd. */
  function Abs(cwd: File, p: Path): (f: File)
    ensures CleanFile(f)
  {
    if IsAbs(p) then Clean(p) else Clean(cwd + p)
  }

  /** The absolute path by which a file is named after filepath.Abs. */
  function PathOf(f: File): (p: Path)
    ensures IsAbs(p)
  {
    if f == [] then ["", ""] else [""] + f
  }

  function StripSlashes(p: Path): Path {
    if |p| > 1 && p[|p| - 1] == "" then StripSlashes(p[..|p| - 1]) else p
  }

  /** filepath.Base. */
  function Base(p: Path): string {
    if p == [""] then "."
    else
      var q := StripSlashes(p);
      if q == [""] then "/" else q[|q| - 1]
  }

  /** The path with a suffix appended to its text. */
  function WithSuffix(p: Path, suffix: string): Path {
    p[..|p| - 1] + [p[|p| - 1] + suffix]
  }

  /** The same on files: what the last name becomes. */
  function SuffixFile(f: File, suffix: string): File {
    if f == [] then [suffix] else f[..|f| - 1] + [f[|f| - 1] + suffix]
  }

  lemma {:induction false} CleanOfClean(f: File)
    requires CleanFile(f)
    ensures Clean([""] + f) == f
  {
    if f == [] {
      assert [""] + f == [""] && [""][..0] == [];
    } else {
      var init, name := f[..|f| - 1], f[|f| - 1];
      CleanOfClean(init);
      CleanOfNamed([""] + init, name);
      assert [""] + f == ([""] + init) + [name];
      assert f == init + [name];
    }
  }

  /** An absolute path stands for one file, whatever the working directory. */
  lemma AbsOfPathOf(cwd: File, f: File)
    requires CleanFile(f)
    ensures Abs(cwd, PathOf(f)) == f
  {
    CleanOfClean(f);
    if f == [] {
      assert ["", ""][..1] == [""] && [""][..0] == [];
    }
  }

  /** The names the update accepts. */
  predicate IsJarName(name: string) {
    HasPrefix(name, "stx-java-proxy-") && HasSuffix(name, ".jar")
  }

  lemma JarNameIsName(name: string)
    requires IsJarName(name)
    ensures IsName(name) && name != "/"
  {
    assert |"stx-java-proxy-"| == 15;
  }

  /** Appending to a path with a trailing slash or a parent reference would change which file
      it means; appending to one that ends in a name does not. */
  predicate EndsInName(p: Path) {
    IsName(p[|p| - 1])
  }

  lemma CleanOfNamed(parts: seq<string>, name: string)
    requires IsName(name)
    ensures Clean(parts + [name]) == Clean(parts) + [name]
  {
    assert (parts + [name])[..|parts|] == parts;
  }

  /** The parts that filepath.Abs cleans, less the last one. */
  function Parent(cwd: File, p: Path): seq<string> {
    if IsAbs(p) then p[..|p| - 1] else cwd + p[..|p| - 1]
  }

  lemma AbsOfNamed(cwd: File, p: Path)
    requires EndsInName(p)
    ensures Abs(cwd, p) == Clean(Parent(cwd, p)) + [p[|p| - 1]]
    ensures Base(p) == p[|p| - 1]
  {
    CleanOfNamed(Parent(cwd, p), p[|p| - 1]);
    if IsAbs(p) {
      assert Parent(cwd, p) + [p[|p| - 1]] == p;
    } else {
      assert Parent(cwd, p) + [p[|p| - 1]] == cwd + p;
    }
  }

  /** The suffix of a path and the suffix of the file it denotes agree. */
  lemma AbsOfSuffix(cwd: File, p: Path, suffix: string)
    requires EndsInName(p) && IsName(p[|p| - 1] + suffix)
    ensures Abs(cwd, WithSuffix(p, suffix)) == SuffixFile(Abs(cwd, p), suffix)
  {
    AbsOfNamed(cwd, p);
    AbsOfSuffixed(cwd, p, suffix);
  }

  /** Appending two different suffixes gives two files, for any path at all, */
  lemma BackupIsNotStaging(cwd: File, p: Path)
    ensures Abs(cwd, WithSuffix(p, ".bak")) != Abs(cwd, WithSuffix(p, ".new"))
  {
    var dir, last := Clean(Parent(cwd, p)), p[|p| - 1];
    AbsOfSuffixed(cwd, p, ".bak");
    AbsOfSuffixed(cwd, p, ".new");
    assert (last + ".bak")[|last| + 1] == 'b' && (last + ".new")[|last| + 1] == 'n';
    assert (dir + [last + ".bak"])[|dir|] != (dir + [last + ".new"])[|dir|];
  }

  /** neither of them the one named before. */
  lemma SuffixesDiffer(cwd: File, p: Path)
    ensures Abs(cwd, WithSuffix(p, ".bak")) != Abs(cwd, WithSuffix(p, ".new"))
    ensures Abs(cwd, p) != Abs(cwd, WithSuffix(p, ".new"))
  {
    var dir, last := Clean(Parent(cwd, p)), p[|p| - 1];
    BackupIsNotStaging(cwd, p);
    AbsOfSuffixed(cwd, p, ".new");
    var whole := if IsAbs(p) then p else cwd + p;
    assert whole[..|whole| - 1] == Parent(cwd, p) && whole[|whole| - 1] == last;
    CleanOfLast(whole);
    if IsName(last) {
      assert |last + ".new"| != |last|;
      assert (dir + [last])[|dir|] != (dir + [last + ".new"])[|dir|];
    }
  }

  /** The last part is added if it is a name, and adds nothing if it is not. */
  lemma CleanOfLast(parts: seq<string>)
    requires parts != []
    ensures var dir, last := Clean(parts[..|parts| - 1]), parts[|parts| - 1];
            if IsName(last) then Clean(parts) == dir + [last] else |Clean(parts)| <= |dir|
  {
  }

  lemma AbsOfSuffixed(cwd: File, p: Path, suffix: string)
    requires IsName(p[|p| - 1] + suffix)
    ensures Abs(cwd, WithSuffix(p, suffix)) == Clean(Parent(cwd, p)) + [p[|p| - 1] + suffix]
  {
    var q := WithSuffix(p, suffix);
    AbsOfNamed(cwd, q);
    assert q[..|q| - 1] == p[..|p| - 1];
    assert Parent(cwd, q) == Parent(cwd, p);
  }

  /** The base name survives filepath.Abs unless it is not a name at all. */
  lemma {:induction false} CleanKeepsBase(pre: seq<string>, p: Path)
    requires IsName(Base(p)) && Base(p) != "/"
    ensures Clean(pre + p) != [] && Clean(pre + p)[|Clean(pre + p)| - 1] == Base(p)
  {
    var whole := pre + p;
    assert whole[|whole| - 1] == p[|p| - 1];
    if p[|p| - 1] == "" {
      assert |p| > 1;
      CleanKeepsBase(pre, p[..|p| - 1]);
      assert whole[..|whole| - 1] == pre + p[..|p| - 1];
    }
  }

  lemma AbsKeepsBase(cwd: File, p: Path)
    requires IsName(Base(p)) && Base(p) != "/"
    ensures Abs(cwd, p) != [] && Abs(cwd, p)[|Abs(cwd, p)| - 1] == Base(p)
  {
    CleanKeepsBase([], p);
    CleanKeepsBase(cwd, p);
    assert [] + p == p;
  }

  // ----- What filepath.Clean does -----

  lemma LastOfConcat(a: seq<string>, b: seq<string>)
    requires b != []
    ensures a + b == (a + b[..|b| - 1]) + [b[|b| - 1]]
  {
  }

  lemma {:induction false} CleanOfFront(a: seq<string>, a': seq<string>, b: seq<string>)
    requires Clean(a) == Clean(a')
    ensures Clean(a + b) == Clean(a' + b)
  {
    if b == [] {
      assert a + b == a && a' + b == a';
    } else {
      var init, last := b[..|b| - 1], b[|b| - 1];
      CleanOfFront(a, a', init);
      SameSnoc(a + init, a' + init, last);
      LastOfConcat(a, b);
      LastOfConcat(a', b);
    }
  }

  lemma SameSnoc(parts: seq<string>, parts': seq<string>, part: string)
    requires Clean(parts) == Clean(parts')
    ensures Clean(parts + [part]) == Clean(parts' + [part])
  {
    CleanOfSnoc(parts, part);
    CleanOfSnoc(parts', part);
  }

  lemma CleanOfSnoc(parts: seq<string>, part: string)
    ensures var f := Clean(parts);
            Clean(parts + [part]) == if part == "" || part == "." then f
                                     else if part == ".." then if f == [] then [] else f[..|f| - 1]
                                     else f + [part]
  {
    assert (parts + [part])[..|parts|] == parts;
  }

  /** Empty parts and single dots add nothing, wherever they stand; */
  lemma CleanDropsDots(a: seq<string>, b: seq<string>)
    ensures Clean(a + [""] + b) == Clean(a + b) == Clean(a + ["."] + b)
  {
    CleanOfSnoc(a, "");
    CleanOfSnoc(a, ".");
    CleanOfFront(a + [""], a, b);
    CleanOfFront(a + ["."], a, b);
  }

  /** two dots take back the name before them, and nothing at the root. With CleanOfClean these laws
      give the result for any path. */
  lemma CleanGoesUp(a: seq<string>, name: string, b: seq<string>)
    requires IsName(name)
    ensures Clean(a + [name, ".."] + b) == Clean(a + b)
    ensures Clean([".."] + b) == Clean(b)
  {
    CleanOfNamed(a, name);
    CleanOfSnoc(a + [name], "..");
    assert a + [name] + [".."] == a + [name, ".."];
    CleanOfFront(a + [name, ".."], a, b);
    CleanOfSnoc([], "..");
    assert [] + [".."] == [".."] && [] + b == b;
    CleanOfFront([".."], [], b);
  }

  /** A relative path is taken below the working directory. */
  lemma AbsOfRelative(cwd: File, names: File)
    requires CleanFile(cwd) && CleanFile(names) && names != []
    ensures Abs(cwd, names) == cwd + names
  {
    CleanOfClean(cwd + names);
    assert Clean([""]) == Clean([]) by { assert [""][..0] == []; }
    CleanOfFront([""], [], cwd + names);
    assert [] + (cwd + names) == cwd + names;
  }

  // ----- What filepath.Base does -----

  /** The base name is the last part, whatever slashes follow it. */
  lemma {:induction false} BaseOfSlashed(p: Path, slashes: nat)
    requires p[|p| - 1] != ""
    ensures Base(p + seq(slashes, _ => "")) == p[|p| - 1]
  {
    var q := p + seq(slashes, _ => "");
    if slashes == 0 {
      assert q == p;
    } else {
      BaseOfSlashed(p, slashes - 1);
      assert q[..|q| - 1] == p + seq(slashes - 1, _ => "");
    }
  }

  /** Of nothing but slashes, and of nothing, it is a name of its own. */
  lemma {:induction false} BaseOfNothing(slashes: nat)
    ensures Base([""] + seq(slashes, _ => "")) == if slashes == 0 then "." else "/"
  {
    var p: Path := [""] + seq(slashes, _ => "");
    if slashes == 0 {
      assert p == [""];
    } else {
      StripAll(slashes);
    }
  }

  lemma {:induction false} StripAll(slashes: nat)
    ensures StripSlashes([""] + seq(slashes, _ => "")) == [""]
  {
    var p: Path := [""] + seq(slashes, _ => "");
    if slashes == 0 {
      assert p == [""];
    } else {
      StripAll(slashes - 1);
      assert p[..|p| - 1] == [""] + seq(slashes - 1, _ => "");
    }
  }

  /** The names the update accepts have something of any kind between their two ends. */
  lemma JarNameIff(name: string)
    ensures IsJarName(name) <==> exists version: string :: name == "stx-java-proxy-" + version + ".jar"
  {
    assert |"stx-java-proxy-"| == 15;
    if IsJarName(name) {
      var n := |name| - 4;
      JarNameIsLong(name);
      assert name == "stx-java-proxy-" + name[15..n] + ".jar";
    }
    if version: string :| name == "stx-java-proxy-" + version + ".jar" {
      assert name[..15] == "stx-java-proxy-" && name[|name| - 4..] == ".jar";
    }
  }

  lemma JarNameIsLong(name: string)
    requires IsJarName(name)
    ensures |name| >= 19
  {
    var n := |name| - 4;
    assert name[n] == '.';
    assert forall i :: 0 <= i < 15 ==> name[i] == "stx-java-proxy-"[i] != '.';
  }
}
