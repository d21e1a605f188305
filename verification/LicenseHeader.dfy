/** Writing the Apache header into a file and reading it back.

    The inserter is a printer and the detector its parser. What one writes the other reads as
    Apache, through shebangs, build constraints and either comment style, with one exception,
    which is stated exactly. */
module LicenseHeader {
  import opened Options
  import opened Text
  import opened PyText
  import opened LeadingComment

  datatype License = Mit | Apache | NoLicense

  const FOUNDATION := ("Licensed to the " + "Apache Software ") + ("Foundation (ASF) " + "under one or more")
  const APACHE_MARKERS := [
    FOUNDATION,
    "Licensed under the Apache License, Version 2.0",
    "The ASF licenses this file to You under the Apache License, Version 2.0",
    "Apache License, Version 2.0"]
  const MIT_MARKER := "MIT License"

  // ----- Detector -----

  function Judge(comment: string): License {
    if Contains(comment, MIT_MARKER) then Mit
    else if exists m :: m in APACHE_MARKERS && Contains(comment, m) then Apache
    else NoLicense
  }

  function Detect(text: string, suffix: string): License {
    Judge(CommentOf(text, suffix))
  }

  // ----- Inserter -----

  /** The header between what goes before it and the rest of the file. */
  function Compose(before: string, header: string, rest: string): string {
    before + header + "\n" + if rest == "" then "" else "\n" + rest
  }

  /** What goes before the header: the shebang line, or the build-constraint prefix of a Go file. */
  function Before(text: string, suffix: string): string {
    if HasPrefix(text, "#!") then BeforeNewline(text) + "\n"
    else if suffix == ".go" then BuildPrefix(text)
    else ""
  }

  function Rest(text: string, suffix: string): string {
    if HasPrefix(text, "#!") then LStripNewlines(AfterNewline(text))
    else if suffix == ".go" && BuildPrefix(text) != "" then LStripNewlines(AfterBuildPrefix(text))
    else LStripNewlines(text)
  }

  function InsertHeader(text: string, header: string, suffix: string): string {
    Compose(Before(text, suffix), header, Rest(text, suffix))
  }

  // ----- What a header must be like -----

  ghost predicate BlockHeader(h: string) {
    && HasPrefix(h, "/*\n *")
    && |h| >= 7 && Find(h, "*/") == Some(|h| - 2)
    && Contains(h, FOUNDATION)
    && 'M' !in h && '\r' !in h
  }

  ghost predicate HashHeader(h: string) {
    && HasPrefix(h, "# ") && '\r' !in h
    && (forall line :: line in Lines(h + "\n") ==> KindOf(line) == Comment && 'M' !in line)
    && Lines(h + "\n") != [] && Contains(Body(Lines(h + "\n")[0]), FOUNDATION)
  }

  /** The two headers, for either comment style. */
  datatype HeaderTexts = HeaderTexts(block: string, hash: string)

  ghost predicate Readable(texts: HeaderTexts) {
    BlockHeader(texts.block) && HashHeader(texts.hash)
  }

  // ----- Markers -----

  lemma MitNeedsM(s: string)
    requires 'M' !in s
    ensures !Contains(s, MIT_MARKER)
  {
    forall i | 0 <= i <= |s| ensures !OccursAt(s, MIT_MARKER, i) {
      if i + |MIT_MARKER| <= |s| {
        assert s[i] in s;
        assert s[i..i + |MIT_MARKER|][0] == s[i];
        assert MIT_MARKER[0] == 'M';
      }
    }
  }

  lemma FoundationIsApache(comment: string)
    requires Contains(comment, FOUNDATION) && !Contains(comment, MIT_MARKER)
    ensures Judge(comment) == Apache
  {
    assert APACHE_MARKERS[0] == FOUNDATION;
  }

  lemma NothingIsNoLicense()
    ensures Judge("") == NoLicense
  {
    forall m | m in APACHE_MARKERS + [MIT_MARKER] ensures !Contains("", m) {
      assert |m| > 0;
    }
  }

  lemma ContainsWithin(s: string, part: string, before: string, after: string)
    requires Contains(s, part)
    ensures Contains(before + s + after, part)
  {
    var i :| 0 <= i <= |s| && OccursAt(s, part, i);
    var whole := before + s + after;
    assert whole[|before| + i..|before| + i + |part|] == s[i..i + |part|];
    assert OccursAt(whole, part, |before| + i);
  }

  /** A marker in a line is a marker in the joined lines. */
  lemma {:induction false} LineInJoin(lines: seq<string>, i: nat, part: string)
    requires i < |lines| && Contains(lines[i], part)
    ensures Contains(Join(lines, '\n'), part)
  {
    if |lines| == 1 {
    } else if i == 0 {
      var rest := ['\n'] + Join(lines[1..], '\n');
      ContainsWithin(lines[0], part, "", rest);
      assert "" + lines[0] + rest == Join(lines, '\n');
    } else {
      LineInJoin(lines[1..], i - 1, part);
      var joined := Join(lines[1..], '\n');
      ContainsWithin(joined, part, lines[0] + ['\n'], "");
      assert lines[0] + ['\n'] + joined + "" == Join(lines, '\n');
    }
  }

  lemma ContainsEither(a: string, c: char, b: string, part: string)
    requires part != "" && c !in part && Contains(a + [c] + b, part)
    ensures Contains(a, part) || Contains(b, part)
  {
    var whole, n := a + [c] + b, |a|;
    var i :| 0 <= i <= |whole| && OccursAt(whole, part, i);
    assert forall j :: i <= j < i + |part| ==> whole[j] == whole[i..i + |part|][j - i] && whole[j] in part;
    if i + |part| <= n {
      assert a[i..i + |part|] == whole[i..i + |part|];
      assert OccursAt(a, part, i);
    } else {
      assert whole[n] == c && i > n;
      assert b[i - n - 1..i - n - 1 + |part|] == whole[i..i + |part|];
      assert OccursAt(b, part, i - n - 1);
    }
  }

  /** And conversely, for a marker that lies on one line. */
  lemma {:induction false} JoinInLine(lines: seq<string>, part: string)
    requires part != "" && '\n' !in part && Contains(Join(lines, '\n'), part)
    ensures exists line :: line in lines && Contains(line, part)
  {
    if |lines| == 1 {
      assert lines[0] in lines;
    } else if |lines| > 1 {
      ContainsEither(lines[0], '\n', Join(lines[1..], '\n'), part);
      assert lines[0] in lines;
      if !Contains(lines[0], part) {
        JoinInLine(lines[1..], part);
      }
    }
  }
}
