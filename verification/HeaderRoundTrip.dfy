/** The detector reads back what the inserter writes. */
module HeaderRoundTrip {
  import opened Text
  import opened PyText
  import opened LeadingComment
  import opened LicenseHeader

  // ----- Kinds of lines and spans -----

  lemma {:induction false} SpanIs(kinds: seq<Kind>, i: nat, j: nat, these: set<Kind>)
    requires i <= j <= |kinds|
    requires forall k :: i <= k < j ==> kinds[k] in these
    requires j < |kinds| ==> kinds[j] !in these
    ensures Span(kinds, i, these) == j
    decreases j - i
  {
    if i < j {
      SpanIs(kinds, i + 1, j, these);
    }
  }

  /** A prefix stays the prefix in front of lines that do not continue it. */
  lemma PrefixAgain(kinds: seq<Kind>, kinds': seq<Kind>)
    requires var k := PrefixEnd(kinds);
             && 0 < k <= |kinds'| && kinds'[..k] == kinds[..k]
             && (k < |kinds'| ==> kinds'[k] == Other)
    ensures PrefixEnd(kinds') == PrefixEnd(kinds)
  {
    var k := PrefixEnd(kinds);
    var a := Span(kinds, 0, {Blank});
    var b := Span(kinds, a, {Build});
    assert forall i :: 0 <= i < k ==> kinds'[i] == kinds[i];
    SpanIs(kinds', 0, a, {Blank});
    SpanIs(kinds', a, b, {Build});
  }

  lemma {:induction false} SpanShift(kinds: seq<Kind>, k: Kind, i: nat, these: set<Kind>)
    requires i <= |kinds|
    ensures Span([k] + kinds, i + 1, these) == Span(kinds, i, these) + 1
    decreases |kinds| - i
  {
    if i < |kinds| {
      SpanShift(kinds, k, i + 1, these);
    }
  }

  lemma PrefixAfterBlank(kinds: seq<Kind>)
    ensures PrefixEnd([Blank] + kinds) == if PrefixEnd(kinds) == 0 then 0 else PrefixEnd(kinds) + 1
  {
    var a := Span(kinds, 0, {Blank});
    SpanShift(kinds, Blank, 0, {Blank});
    SpanShift(kinds, Blank, a, {Build});
    assert Span([Blank] + kinds, 0, {Blank}) == a + 1;
  }

  // ----- Where the comment is expected -----

  lemma LinesAfterNewline(t: string)
    ensures Lines("\n" + t) == ["\n"] + Lines(t)
    ensures Kinds(Lines("\n" + t)) == [Blank] + Kinds(Lines(t))
  {
    LinesOfAppend("\n", t);
    UnbrokenIsLine("");
    assert "" + "\n" == "\n";
    LinesOfLine("\n");
    assert "\n"[1..] == "" && KindOf("\n") == Blank;
  }

  lemma OneNewlineBefore(t: string)
    requires PrefixEnd(Kinds(Lines("\n" + t))) > 0
    ensures PrefixEnd(Kinds(Lines(t))) > 0
    ensures AfterBuildPrefix("\n" + t) == AfterBuildPrefix(t)
  {
    LinesAfterNewline(t);
    PrefixAfterBlank(Kinds(Lines(t)));
    var k := PrefixEnd(Kinds(Lines(t)));
    assert (["\n"] + Lines(t))[k + 1..] == Lines(t)[k..];
  }

  lemma {:induction false} PrefixAfterNewlines(t: string)
    requires PrefixEnd(Kinds(Lines(t))) > 0
    ensures AfterBuildPrefix(LStripNewlines(t)) == AfterBuildPrefix(t)
  {
    if t != "" && t[0] == '\n' {
      var rest := t[1..];
      assert t == "\n" + rest;
      OneNewlineBefore(rest);
      PrefixAfterNewlines(rest);
    }
  }

  lemma KindStart(line: string)
    requires line != "" && (KindOf(line) == Blank || KindOf(line) == Build)
    ensures IsPySpace(line[0]) || line[0] == '/'
  {
    assert "//go:build"[0] == "// +build"[0] == '/';
  }

  lemma PrefixKinds(kinds: seq<Kind>)
    requires PrefixEnd(kinds) > 0
    ensures kinds[0] == Blank || kinds[0] == Build
  {
    var a := Span(kinds, 0, {Blank});
    var b := Span(kinds, a, {Build});
  }

  /** A text that starts with a build-constraint prefix starts neither with a byte order mark
      nor with a shebang. */
  lemma PrefixStart(t: string)
    requires PrefixEnd(Kinds(Lines(t))) > 0
    ensures t != "" && t[0] != BOM && t[0] != '#'
  {
    var lines := Lines(t);
    FirstOfLines(t);
    assert KindOf(lines[0]) == Blank || KindOf(lines[0]) == Build by { PrefixKinds(Kinds(lines)); }
    assert IsPySpace(t[0]) || t[0] == '/' by { KindStart(lines[0]); }
    assert !IsPySpace(BOM) && !IsPySpace('#');
  }

  lemma FirstOfLines(t: string)
    requires Lines(t) != []
    ensures t != "" && Lines(t)[0] != "" && Lines(t)[0][0] == t[0]
  {
  }

  lemma GoCommentText(t: string)
    requires PrefixEnd(Kinds(Lines(t))) > 0
    ensures CommentText(t, ".go") == LStripNewlines(AfterBuildPrefix(t))
  {
    PrefixStart(t);
    assert "#!"[0] == '#';
    assert StripBoms(t) == t && !HasPrefix(t, "#!");
    PrefixAfterNewlines(t);
  }

  /** A text that starts with a block header has it as its first line and has no prefix. */
  lemma BlockStart(t: string)
    requires HasPrefix(t, "/*\n")
    ensures Lines(t) == ["/*\n"] + Lines(t[3..]) && KindOf("/*\n") == Other
    ensures AfterBuildPrefix(t) == t && LStripNewlines(t) == t
  {
    assert t == "/*\n" + t[3..];
    LinesOfAppend("/*\n", t[3..]);
    UnbrokenIsLine("/*");
    assert "/*" + "\n" == "/*\n";
    LinesOfLine("/*\n");
    CommentOpensOther("/*\n");
    NoPrefixBefore(t);
  }

  lemma CommentOpensOther(line: string)
    requires line != "" && HasPrefix(LStrip(line), "/*")
    ensures KindOf(line) == Other
  {
    var r := LStrip(line);
    assert r[1] == "/*"[1] == '*';
    assert "//go:build"[1] == "// +build"[1] == "//"[1] == '/' && r[0] == "/*"[0] == '/';
  }

  lemma NoPrefixBefore(t: string)
    requires Lines(t) != [] && KindOf(Lines(t)[0]) == Other
    ensures PrefixEnd(Kinds(Lines(t))) == 0 && AfterBuildPrefix(t) == t
    ensures CommentLines(t) == []
  {
    var kinds := Kinds(Lines(t));
    assert kinds[0] == Other;
    assert Span(kinds, 0, {Blank}) == 0 && Span(kinds, 0, {Build}) == 0;
    assert Lines(t)[0..] == Lines(t);
    ConcatOfLines(t);
  }

  lemma {:induction false} AfterNewlineOf(first: string, rest: string)
    requires '\n' !in first
    ensures AfterNewline(first + "\n" + rest) == rest
  {
    var t := first + "\n" + rest;
    if first == "" {
      assert t[1..] == rest;
    } else {
      AfterNewlineOf(first[1..], rest);
      assert t[1..] == first[1..] + "\n" + rest;
    }
  }

  /** At a header that follows a shebang line, or nothing, the comment is expected right there. */
  lemma CommentTextAtHeader(before: string, tail: string, suffix: string)
    requires || before == ""
             || (HasPrefix(before, "#!") && before[|before| - 1] == '\n' && '\n' !in before[..|before| - 1])
    requires HasPrefix(tail, "/*\n") || (HasPrefix(tail, "# ") && suffix != ".go")
    ensures CommentText(before + tail, suffix) == tail
  {
    var t := before + tail;
    assert t[0] != BOM;
    assert StripBoms(t) == t;
    if before == "" {
      assert t == tail;
      assert !HasPrefix(t, "#!") by {
        if HasPrefix(tail, "# ") { assert tail[1] == "# "[1] == ' '; } else { assert tail[0] == "/*\n"[0] == '/'; }
      }
    } else {
      var first := before[..|before| - 1];
      assert t == first + "\n" + tail;
      AfterNewlineOf(first, tail);
    }
    assert LStripNewlines(tail) == tail;
    if suffix == ".go" {
      BlockStart(tail);
    }
  }

  // ----- Block comments -----

  lemma {:induction false} FindOfAppend(t: string, more: string, part: string)
    requires Find(t, part).Some? && part != ""
    ensures Find(t + more, part) == Find(t, part)
  {
    if !(part <= t) {
      FindOfAppend(t[1..], more, part);
      assert (t + more)[1..] == t[1..] + more;
      assert !(part <= t + more) by { FindFits(t, part); }
    }
  }

  lemma {:induction false} FindFits(t: string, part: string)
    requires Find(t, part).Some?
    ensures Find(t, part).value + |part| <= |t|
  {
    if !(part <= t) {
      FindFits(t[1..], part);
    }
  }

  /** A block header is read as Apache wherever the comment is expected, whatever follows it. */
  lemma BlockIsApache(t: string, suffix: string, h: string, more: string)
    requires BlockHeader(h) && CommentText(t, suffix) == h + more
    ensures Detect(t, suffix) == Apache
  {
    FindOfAppend(h, more, "*/");
    assert h[..2] == "/*\n *"[..2] == "/*";
    assert HasPrefix(h + more, "/*");
    assert (h + more)[..|h|] == h;
    assert CommentOf(t, suffix) == h;
    MitNeedsM(h);
    FoundationIsApache(h);
  }

  // ----- Build constraints -----

  /** Kinds of the lines of two texts in a row. */
  lemma KindsOfAppend(a: seq<string>, b: seq<string>)
    ensures Kinds(a + b) == Kinds(a) + Kinds(b)
  {
  }

  /** A build-constraint prefix that ends its last line is found again in front of a header. */
  lemma PrefixBeforeHeader(text: string, tail: string)
    requires BuildPrefix(text) != "" && EndsLine(BuildPrefix(text), tail) && HasPrefix(tail, "/*\n")
    ensures CommentText(BuildPrefix(text) + tail, ".go") == tail
  {
    var front := Lines(text)[..PrefixEnd(Kinds(Lines(text)))];
    var t := BuildPrefix(text) + tail;
    PrefixIsNotEmpty(text);
    assert Lines(t) == front + Lines(tail) by { LinesAtPrefix(text, tail); }
    BlockStart(tail);
    assert PrefixEnd(Kinds(Lines(t))) == |front| by { PrefixKeepsKinds(Lines(text), Lines(tail)); }
    GoCommentText(t);
    DropFront(front, Lines(tail), |front|);
    ConcatOfLines(tail);
  }

  lemma LinesAtPrefix(text: string, tail: string)
    requires EndsLine(BuildPrefix(text), tail)
    ensures Lines(BuildPrefix(text) + tail) == Lines(text)[..PrefixEnd(Kinds(Lines(text)))] + Lines(tail)
  {
    LinesOfParts(text, PrefixEnd(Kinds(Lines(text))));
    LinesOfAppend(BuildPrefix(text), tail);
  }

  lemma PrefixKeepsKinds(lines: seq<string>, more: seq<string>)
    requires PrefixEnd(Kinds(lines)) > 0 && more != [] && KindOf(more[0]) == Other
    ensures PrefixEnd(Kinds(lines[..PrefixEnd(Kinds(lines))] + more)) == PrefixEnd(Kinds(lines))
  {
    var k := PrefixEnd(Kinds(lines));
    KindsOfAppend(lines[..k], more);
    assert (Kinds(lines[..k]) + Kinds(more))[..k] == Kinds(lines)[..k];
    PrefixAgain(Kinds(lines), Kinds(lines[..k]) + Kinds(more));
  }

  lemma PrefixIsNotEmpty(text: string)
    requires BuildPrefix(text) != ""
    ensures PrefixEnd(Kinds(Lines(text))) > 0
  {
    assert Lines(text)[..0] == [];
  }

  /** One that does not end its last line is the whole text. */
  lemma OpenPrefixIsAll(text: string)
    requires BuildPrefix(text) != "" && !EndsLine(BuildPrefix(text), "/")
    ensures PrefixEnd(Kinds(Lines(text))) == |Lines(text)| > 0
    ensures BuildPrefix(text) == text && AfterBuildPrefix(text) == ""
  {
    var lines := Lines(text);
    var k := PrefixEnd(Kinds(lines));
    PrefixIsNotEmpty(text);
    if k < |lines| {
      FrontEndsLine(text, k);
    }
    assert lines[..|lines|] == lines && lines[|lines|..] == [];
    ConcatOfLines(text);
  }

  /** Gluing a block header to an open last line makes one line of the two first lines. */
  lemma GluedLines(text: string, more: string)
    requires Lines(text) != [] && !EndsLine(text, "/")
    ensures var lines := Lines(text);
            var n := |lines| - 1;
            && Lines(text + "/*\n" + more) == lines[..n] + [lines[n] + "/*\n"] + Lines(more)
            && lines[n] != "" && forall i :: 0 <= i < |lines[n]| ==> !IsBreak(lines[n][i])
  {
    var lines := Lines(text);
    var n := |lines| - 1;
    var front, last := Concat(lines[..n]), lines[n];
    var glued := last + "/*\n";
    LastLine(text);
    OpenLine(last);
    assert Lines(glued + more) == [glued] + Lines(more) by { GluedLine(last, more); }
    assert Lines(front + (glued + more)) == lines[..n] + Lines(glued + more) by {
      assert EndsLine(front, glued + more);
      LinesOfAppend(front, glued + more);
    }
    assert text + "/*\n" + more == front + (glued + more) by { Regroup(front, last, "/*\n", more); }
    ListAssoc(lines[..n], [glued], Lines(more));
  }

  lemma Regroup<T>(a: seq<T>, b: seq<T>, c: seq<T>, d: seq<T>)
    ensures (a + b) + c + d == a + ((b + c) + d)
  {
  }

  lemma DropFront<T>(a: seq<T>, b: seq<T>, n: nat)
    requires n == |a|
    ensures (a + b)[n..] == b
  {
  }

  lemma ListAssoc<T>(a: seq<T>, b: seq<T>, c: seq<T>)
    ensures a + (b + c) == a + b + c
  {
  }

  lemma GluedLine(line: string, more: string)
    requires forall i :: 0 <= i < |line| ==> !IsBreak(line[i])
    ensures Lines(line + "/*\n" + more) == [line + "/*\n"] + Lines(more)
  {
    UnbrokenIsLine(line + "/*");
    assert line + "/*" + "\n" == line + "/*\n";
    LinesOfLine(line + "/*\n");
    LinesOfAppend(line + "/*\n", more);
  }

  /** A line that does not end in a break has none. */
  lemma {:induction false} OpenLine(line: string)
    requires IsLine(line) && !IsBreak(line[|line| - 1])
    ensures forall i :: 0 <= i < |line| ==> !IsBreak(line[i])
  {
    if |line| > 1 {
      OpenLine(line[1..]);
      assert forall i :: 1 <= i < |line| ==> line[i] == line[1..][i - 1];
    }
  }

  lemma {:induction false} LStripOfAppend(s: string, more: string)
    ensures LStrip(s + more) == if LStrip(s) == "" then LStrip(more) else LStrip(s) + more
  {
    if s == "" {
      assert s + more == more;
    } else if IsPySpace(s[0]) {
      LStripOfAppend(s[1..], more);
      assert (s + more)[1..] == s[1..] + more;
    }
  }

  /** The glued line is a constraint if the open line was one, and no comment if it was blank. */
  lemma KindOfGlued(line: string)
    requires KindOf(line) == Blank || KindOf(line) == Build
    ensures KindOf(line + "/*\n") == if KindOf(line) == Build then Build else Other
  {
    LStripOfAppend(line, "/*\n");
    if KindOf(line) == Blank {
      assert LStrip("/*\n") == "/*\n";
      assert "/*\n"[..2] == "/*";
      CommentOpensOther(line + "/*\n");
    } else {
      var r, r' := LStrip(line), LStrip(line + "/*\n");
      assert r' == r + "/*\n";
      assert HasPrefix(r, "//go:build") ==> HasPrefix(r', "//go:build");
      assert HasPrefix(r, "// +build") ==> HasPrefix(r', "// +build");
    }
  }

  /** The kinds that the glued text shows, and where its prefix ends: behind the glued line if
      that is a constraint, before it if it is not. */
  lemma GluedPrefix(kinds: seq<Kind>, more: seq<Kind>)
    requires PrefixEnd(kinds) == |kinds| > 0
    requires more != [] && more[0] == Other
    ensures var n := |kinds| - 1;
            && (kinds[n] == Blank || kinds[n] == Build)
            && (kinds[n] == Build ==> PrefixEnd(kinds + more) == n + 1)
            && (kinds[n] == Blank ==> n > 0 && PrefixEnd(kinds[..n] + [Other] + more) == n)
  {
    var n := |kinds| - 1;
    var a := Span(kinds, 0, {Blank});
    var b := Span(kinds, a, {Build});
    if kinds[n] == Build {
      PrefixAgain(kinds, kinds + more);
    } else {
      var glued := kinds[..n] + [Other] + more;
      SpanIs(glued, 0, a, {Blank});
      SpanIs(glued, a, b, {Build});
    }
  }

  /** Glued to an open prefix, a block header is not read at all. */
  lemma GluedIsNoLicense(text: string, h: string)
    requires BuildPrefix(text) != "" && !EndsLine(BuildPrefix(text), "/") && BlockHeader(h)
    ensures Detect(text + h + "\n", ".go") == NoLicense
  {
    OpenPrefixIsAll(text);
    var more := h[3..] + "\n";
    assert h == "/*\n" + h[3..] by { assert h[..3] == "/*\n *"[..3] == "/*\n"; }
    assert text + "/*\n" + more == text + h + "\n";
    SecondHeaderLine(h);
    GluedLines(text, more);
    GluedPrefix(Kinds(Lines(text)), Kinds(Lines(more)));
    if KindOf(Lines(text)[|Lines(text)| - 1]) == Build {
      GluedToConstraint(text, more);
    } else {
      GluedToBlank(text, more);
    }
  }

  lemma GluedToConstraint(text: string, more: string)
    requires var kinds := Kinds(Lines(text)); PrefixEnd(kinds) == |kinds| > 0 && kinds[|kinds| - 1] == Build
    requires !EndsLine(text, "/")
    requires Lines(more) != [] && KindOf(Lines(more)[0]) == Other && more[0] == ' '
    ensures Detect(text + "/*\n" + more, ".go") == NoLicense
  {
    var lines := Lines(text);
    var n := |lines| - 1;
    var t := text + "/*\n" + more;
    var front := lines[..n] + [lines[n] + "/*\n"];
    assert Lines(t) == front + Lines(more) by { GluedLines(text, more); }
    assert PrefixEnd(Kinds(front + Lines(more))) == n + 1 by {
      KindsOfGluedConstraint(lines, lines[n] + "/*\n");
      KindsOfAppend(front, Lines(more));
      GluedPrefix(Kinds(lines), Kinds(Lines(more)));
    }
    assert AfterBuildPrefix(t) == more by {
      DropFront(front, Lines(more), n + 1);
      ConcatOfLines(more);
    }
    GoCommentText(t);
    ReadsNothing(t, more);
  }

  lemma KindsOfGluedConstraint(lines: seq<string>, glued: string)
    requires lines != [] && KindOf(lines[|lines| - 1]) == Build && glued == lines[|lines| - 1] + "/*\n"
    ensures Kinds(lines[..|lines| - 1] + [glued]) == Kinds(lines)
  {
    KindOfGlued(lines[|lines| - 1]);
  }

  lemma GluedToBlank(text: string, more: string)
    requires var kinds := Kinds(Lines(text)); PrefixEnd(kinds) == |kinds| > 0 && kinds[|kinds| - 1] == Blank
    requires !EndsLine(text, "/")
    requires Lines(more) != [] && KindOf(Lines(more)[0]) == Other
    ensures Detect(text + "/*\n" + more, ".go") == NoLicense
  {
    var lines := Lines(text);
    var n := |lines| - 1;
    var t, glued := text + "/*\n" + more, lines[n] + "/*\n";
    GluedLines(text, more);
    KindsOfGlued(lines, glued, Lines(more));
    GluedPrefix(Kinds(lines), Kinds(Lines(more)));
    assert AfterBuildPrefix(t) == glued + more by {
      ListAssoc(lines[..n], [glued], Lines(more));
      DropFront(lines[..n], [glued] + Lines(more), n);
      ConcatOfAppend([glued], Lines(more));
      ConcatOfOne(glued);
      ConcatOfLines(more);
    }
    GoCommentText(t);
    GluedRest(lines[n], more);
    ReadsNothing(t, glued + more);
  }

  lemma KindsOfGlued(lines: seq<string>, glued: string, more: seq<string>)
    requires lines != [] && KindOf(lines[|lines| - 1]) == Blank && glued == lines[|lines| - 1] + "/*\n"
    ensures var n := |lines| - 1; Kinds(lines[..n] + [glued] + more) == Kinds(lines)[..n] + [Other] + Kinds(more)
  {
    KindOfGlued(lines[|lines| - 1]);
  }

  lemma SecondHeaderLine(h: string)
    requires BlockHeader(h)
    ensures var more := h[3..] + "\n"; Lines(more) != [] && KindOf(Lines(more)[0]) == Other && more[0] == ' '
  {
    var more := h[3..] + "\n";
    assert more[0] == h[3] == "/*\n *"[3] == ' ' && more[1] == h[4] == "/*\n *"[4] == '*';
    var line := Lines(more)[0];
    assert line == more[..LineEnd(more)] && LineEnd(more) >= 2;
    assert line[0] == ' ' && line[1] == '*';
    assert LStrip(line) == line[1..] by { assert LStrip(line[1..]) == line[1..]; }
    assert "//go:build"[0] == "// +build"[0] == "//"[0] == '/' && "#"[0] == '#';
  }

  lemma GluedRest(line: string, more: string)
    requires line != "" && KindOf(line) == Blank && forall i :: 0 <= i < |line| ==> !IsBreak(line[i])
    ensures var rest := line + "/*\n" + more;
            Lines(rest) != [] && KindOf(Lines(rest)[0]) == Other && rest[0] != '\n' && rest[0] != '/'
  {
    GluedLine(line, more);
    KindOfGlued(line);
    KindStart(line);
    assert LStrip(line) != line;
  }

  /** No comment is read where the first line is none. */
  lemma ReadsNothing(t: string, rest: string)
    requires CommentText(t, ".go") == LStripNewlines(rest)
    requires Lines(rest) != [] && KindOf(Lines(rest)[0]) == Other && rest[0] != '\n' && rest[0] != '/'
    ensures Detect(t, ".go") == NoLicense
  {
    assert LStripNewlines(rest) == rest;
    assert "/*"[0] == '/';
    NoPrefixBefore(rest);
    NothingIsNoLicense();
  }
}
