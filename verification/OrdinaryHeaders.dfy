/** What the detector reads in files with ordinary headers, that no inserter has written. */
module OrdinaryHeaders {
  import opened Options
  import opened Text
  import opened PyText
  import opened LeadingComment
  import opened LicenseHeader
  import opened HeaderRoundTrip

  // ----- Where the comment is expected -----

  lemma NoPrefixAt(t: string)
    requires Lines(t) != [] && (KindOf(Lines(t)[0]) == Other || KindOf(Lines(t)[0]) == Comment)
    ensures AfterBuildPrefix(t) == t
  {
    var kinds := Kinds(Lines(t));
    assert kinds[0] == KindOf(Lines(t)[0]);
    assert Span(kinds, 0, {Blank}) == 0 && Span(kinds, 0, {Build}) == 0;
    assert Lines(t)[0..] == Lines(t);
    ConcatOfLines(t);
  }

  /** A text that begins with neither a byte order mark, a shebang nor a line break. */
  predicate BeginsPlainly(t: string) {
    t != "" && t[0] != BOM && t[0] != '\n' && !HasPrefix(t, "#!")
  }

  lemma CommentAtStart(t: string, suffix: string)
    requires BeginsPlainly(t)
    requires Lines(t) != [] && (KindOf(Lines(t)[0]) == Other || KindOf(Lines(t)[0]) == Comment)
    ensures CommentText(t, suffix) == t
  {
    NoPrefixAt(t);
    assert StripBoms(t) == t && LStripNewlines(t) == t;
  }

  // ----- Block comments -----

  lemma {:induction false} FindFirst(s: string)
    requires !Contains(s, "*/")
    ensures Find(s + "*/", "*/") == Some(|s|)
  {
    var t := s + "*/";
    if s == "" {
      assert t == "*/";
    } else {
      InLonger(s, "*/");
      FindFirst(s[1..]);
      assert t[1..] == s[1..] + "*/";
      ClosedEarly(s);
    }
  }

  lemma InLonger(s: string, part: string)
    requires s != ""
    ensures Contains(s[1..], part) ==> Contains(s, part)
  {
    if Contains(s[1..], part) {
      ContainsWithin(s[1..], part, [s[0]], "");
      assert [s[0]] + s[1..] + "" == s;
    }
  }

  lemma ClosedEarly(s: string)
    requires s != ""
    ensures "*/" <= s + "*/" ==> Contains(s, "*/")
  {
    var t := s + "*/";
    assert "*/"[0] == '*' && "*/"[1] == '/';
    assert |s| == 1 ==> t[1] == '*';
    if "*/" <= t && |s| > 1 {
      assert s[0..2] == t[0..2] == "*/";
      assert OccursAt(s, "*/", 0);
    }
  }

  /** A comment that opens with a star and a slash apart, and closes where it should. */
  ghost predicate IsBlockBody(body: string) {
    !Contains(body, "*/") && (body == "" || body[0] != '/')
  }

  lemma BlockCloses(body: string)
    requires IsBlockBody(body)
    ensures Find("/*" + body + "*/", "*/") == Some(|body| + 2)
  {
    var s := "/*" + body;
    if Contains(s, "*/") {
      OnlyInBody(body);
    }
    FindFirst(s);
  }

  lemma OnlyInBody(body: string)
    requires Contains("/*" + body, "*/")
    ensures Contains(body, "*/") || (body != "" && body[0] == '/')
  {
    var s := "/*" + body;
    var i :| 0 <= i <= |s| && OccursAt(s, "*/", i);
    assert s[i..i + 2][0] == s[i] == '*' && s[i..i + 2][1] == s[i + 1] == '/';
    assert s[0] == '/' && s[1] == '*';
    if i >= 2 {
      assert body[i - 2..i] == s[i..i + 2];
      assert OccursAt(body, "*/", i - 2);
    } else {
      assert i == 1 && body[0] == s[2];
    }
  }

  lemma BlockIsFirst(t: string)
    requires HasPrefix(t, "/*")
    ensures BeginsPlainly(t) && Lines(t) != [] && KindOf(Lines(t)[0]) == Other
  {
    assert t[0] == "/*"[0] == '/' && t[1] == "/*"[1] == '*';
    assert "#!"[0] == '#';
    FirstLineStarts(t);
    assert LStrip(Lines(t)[0]) == Lines(t)[0];
    CommentOpensOther(Lines(t)[0]);
  }

  lemma FirstLineStarts(t: string)
    requires HasPrefix(t, "/*")
    ensures Lines(t) != [] && HasPrefix(Lines(t)[0], "/*")
  {
    assert t[0] == "/*"[0] == '/' && t[1] == "/*"[1] == '*';
    assert LineEnd(t) >= 2;
    assert t[..LineEnd(t)][..2] == t[..2];
  }

  /** A block comment at the start of a file is what is read, whatever follows it and whatever the
      file is. */
  lemma BlockCommentIsRead(body: string, rest: string, suffix: string)
    requires IsBlockBody(body)
    ensures CommentOf("/*" + body + "*/" + rest, suffix) == "/*" + body + "*/"
  {
    var block := "/*" + body + "*/";
    BlockCloses(body);
    FindOfAppend(block, rest, "*/");
    assert (block + rest)[..|block|] == block;
    assert block[..2] == "/*" && (block + rest)[..2] == "/*";
    BlockIsFirst(block + rest);
    CommentAtStart(block + rest, suffix);
  }

  lemma MarkerInside(body: string, marker: string)
    requires marker != "" && '*' !in marker && '/' !in marker
    ensures Contains("/*" + body + "*/", marker) <==> Contains(body, marker)
  {
    if Contains("/*" + body + "*/", marker) {
      ContainedWithin("/*", body, "*/", marker);
    }
    if Contains(body, marker) {
      ContainsWithin(body, marker, "/*", "*/");
    }
  }

  lemma MitMarkerIsPlain()
    ensures '*' !in MIT_MARKER && '/' !in MIT_MARKER
  {
  }

  /** Such a file is taken for MIT exactly if the comment says so, */
  lemma MitBlockIff(body: string, rest: string, suffix: string)
    requires IsBlockBody(body)
    ensures Detect("/*" + body + "*/" + rest, suffix) == Mit <==> Contains(body, "MIT License")
  {
    BlockCommentIsRead(body, rest, suffix);
    MitMarkerIsPlain();
    MarkerInside(body, MIT_MARKER);
  }

  /** and else for Apache if the comment has one of the markers. */
  lemma ApacheBlock(body: string, rest: string, suffix: string, marker: string)
    requires IsBlockBody(body) && !Contains(body, "MIT License")
    requires marker in APACHE_MARKERS && Contains(body, marker)
    ensures Detect("/*" + body + "*/" + rest, suffix) == Apache
  {
    MitBlockIff(body, rest, suffix);
    BlockCommentIsRead(body, rest, suffix);
    ContainsWithin(body, marker, "/*", "*/");
  }

  /** Without a marker it has no license, whatever the rest of the file says. */
  lemma PlainBlock(body: string, rest: string, suffix: string)
    requires IsBlockBody(body)
    requires forall m :: m in APACHE_MARKERS + [MIT_MARKER] ==> !Contains("/*" + body + "*/", m)
    ensures Detect("/*" + body + "*/" + rest, suffix) == NoLicense
  {
    BlockCommentIsRead(body, rest, suffix);
    assert MIT_MARKER in APACHE_MARKERS + [MIT_MARKER];
  }

  lemma {:induction false} NotFound(t: string, part: string)
    requires part != "" && !Contains(t, part)
    ensures Find(t, part) == None
  {
    if t != "" {
      InLonger(t, part);
      NotFound(t[1..], part);
      if part <= t {
        assert OccursAt(t, part, 0);
        assert false;
      }
    }
  }

  /** Of a block comment that is not closed the first 4096 characters are read. */
  lemma OpenBlockIsRead(body: string, suffix: string)
    requires !Contains("/*" + body, "*/")
    ensures var t := "/*" + body;
            CommentOf(t, suffix) == if |t| <= 4096 then t else t[..4096]
  {
    var t := "/*" + body;
    NotFound(t, "*/");
    assert t[..2] == "/*";
    BlockIsFirst(t);
    CommentAtStart(t, suffix);
  }

  // ----- In front of the comment -----

  /** A byte order mark is passed over, however many there are, */
  lemma BomIsPassedOver(text: string, suffix: string)
    ensures CommentOf([BOM] + text, suffix) == CommentOf(text, suffix)
  {
    assert ([BOM] + text)[1..] == text;
  }

  /** and so is a shebang line. */
  lemma ShebangIsPassedOver(line: string, rest: string, suffix: string)
    requires HasPrefix(line, "#!") && '\n' !in line
    requires rest == "" || (rest[0] != BOM && rest[0] != '#')
    ensures CommentOf(line + "\n" + rest, suffix) == CommentOf(rest, suffix)
  {
    var t := line + "\n" + rest;
    assert line[0] == "#!"[0] == '#';
    assert t[..2] == line[..2] == "#!";
    assert StripBoms(t) == t;
    assert StripBoms(rest) == rest && !HasPrefix(rest, "#!");
    AfterNewlineOf(line, rest);
  }

  // ----- Kinds of lines -----

  /** A line is what stands behind its indentation. */
  lemma KindOfIndented(indent: string, s: string)
    requires AllPySpace(indent)
    requires s == "" || !IsPySpace(s[0])
    ensures KindOf(indent + s)
         == if s == "" then Blank
            else if HasPrefix(s, "//go:build") || HasPrefix(s, "// +build") then Build
            else if HasPrefix(s, "//") || HasPrefix(s, "#") then Comment
            else Other
  {
    LStripOfPadded(indent, s);
  }

  // ----- Line comments -----

  /** A line comment at the very start, in either style. */
  ghost predicate IsFirstComment(line: string) {
    && line != "" && !IsPySpace(line[0]) && line[0] != BOM && !HasPrefix(line, "#!")
    && (forall i :: 0 <= i < |line| ==> !IsBreak(line[i]))
    && (HasPrefix(line, "#") || HasPrefix(line, "//"))
    && !HasPrefix(line, "//go:build") && !HasPrefix(line, "// +build")
  }

  lemma FirstCommentLine(line: string, rest: string)
    requires IsFirstComment(line)
    ensures Lines(line + "\n" + rest) == [line + "\n"] + Lines(rest)
    ensures KindOf(line + "\n") == Comment && Body(line + "\n") == line
  {
    UnbrokenIsLine(line);
    LinesOfLine(line + "\n");
    LinesOfAppend(line + "\n", rest);
    assert (line + "\n")[..|line|] == line;
    KindOfSnoc(line, '\n');
    assert LStrip(line) == line;
    assert !IsBreak(line[|line| - 1]);
    assert IsBreak('\r');
  }

  lemma FirstIsRead(t: string)
    requires Lines(t) != [] && KindOf(Lines(t)[0]) == Comment
    ensures CommentLines(t) != [] && CommentLines(t)[0] == Body(Lines(t)[0])
  {
    var lines := Lines(t);
    var kinds := Kinds(lines);
    assert kinds[0] == Comment;
    assert CommentStart(kinds) == 0;
    assert CommentEnd(kinds) >= 1;
  }

  lemma NoShebang(line: string, rest: string)
    requires !HasPrefix(line, "#!") && line != ""
    ensures !HasPrefix(line + "\n" + rest, "#!")
  {
    assert "#!"[1] == '!';
  }

  /** What stands in the first line is part of what is read. */
  lemma LineCommentIsRead(line: string, rest: string, suffix: string, part: string)
    requires IsFirstComment(line) && Contains(line, part)
    ensures Contains(CommentOf(line + "\n" + rest, suffix), part)
  {
    var t := line + "\n" + rest;
    FirstCommentLine(line, rest);
    NoShebang(line, rest);
    CommentAtStart(t, suffix);
    FirstIsRead(t);
    assert !HasPrefix(t, "/*") by { assert "/*"[0] == '/' && "/*"[1] == '*' && "//"[1] == '/' && "#"[0] == '#'; }
    LineInJoin(CommentLines(t), 0, part);
  }

  /** So a marker there is recognised: a file with the one is MIT, a file with another is not without a
      license. */
  lemma LicenseInLine(line: string, rest: string, suffix: string)
    requires IsFirstComment(line)
    ensures Contains(line, "MIT License") ==> Detect(line + "\n" + rest, suffix) == Mit
    ensures (exists m :: m in APACHE_MARKERS && Contains(line, m)) ==>
              Detect(line + "\n" + rest, suffix) != NoLicense
  {
    if Contains(line, MIT_MARKER) {
      LineCommentIsRead(line, rest, suffix, MIT_MARKER);
    }
    if m :| m in APACHE_MARKERS && Contains(line, m) {
      LineCommentIsRead(line, rest, suffix, m);
    }
  }
}
