/** The two headers that the inserter writes, and what makes them readable. */
module Headers {
  import opened Options
  import opened Text
  import opened PyText
  import opened LeadingComment
  import opened LicenseHeader
  import opened LicenseInserter

  // ----- The license text -----

  /** Printable characters, none of which could close a block comment, and no 'M'. */
  predicate Plain(s: string) {
    forall i :: 0 <= i < |s| ==> ' ' <= s[i] <= '~' && s[i] != '*' && s[i] != 'M'
  }

  type PlainText = s: string | Plain(s)

  /** A line of the license behind its comment mark: empty, or set off by a space. */
  type LicenseLine = s: string | Plain(s) && (s == "" || s[0] == ' ')

  /** The verifier looks into a text literal one character after the other, and not far, so that each
      line is put together from short phrases. */
  function Both(a: PlainText, b: PlainText): PlainText {
    a + b
  }

  function Line(a: PlainText, b: PlainText): LicenseLine {
    " " + a + b
  }

  const LICENSED_1: PlainText := Both("Licensed to the ", "Apache Software ")
  const LICENSED_2: PlainText := Both("Foundation (ASF) ", "under one or more")
  const AGREEMENTS_1: PlainText := Both("contributor license ", "agreements.  See ")
  const AGREEMENTS_2: PlainText := Both("the NOTICE file ", "distributed with")
  const OWNERSHIP_1: PlainText := Both("this work for ", "additional ")
  const OWNERSHIP_2: PlainText := Both("information regarding ", "copyright ownership.")
  const GRANT_1: PlainText := Both("The ASF licenses ", "this file to You ")
  const GRANT_2: PlainText := Both("under the Apache ", "License, Version 2.0")
  const COMPLIANCE_1: PlainText := Both("(the \"License\"); ", "you may not use ")
  const COMPLIANCE_2: PlainText := Both("this file except ", "in compliance with")
  const COPY_1: PlainText := Both("the License.  ", "You may obtain ")
  const COPY_2: PlainText := Both("a copy of the ", "License at")
  const ADDRESS_1: PlainText := Both("   http://", "www.apache.org/")
  const ADDRESS_2: PlainText := Both("licenses/", "LICENSE-2.0")
  const UNLESS_1: PlainText := Both("Unless required by ", "applicable law or ")
  const UNLESS_2: PlainText := Both("agreed to in ", "writing, software")
  const AS_IS_1: PlainText := Both("distributed under ", "the License is ")
  const AS_IS_2: PlainText := Both("distributed on an ", "\"AS IS\" BASIS,")
  const WARRANTIES_1: PlainText := Both("WITHOUT WARRANTIES ", "OR CONDITIONS OF ")
  const WARRANTIES_2: PlainText := Both("ANY KIND, either ", "express or implied.")
  const PERMISSIONS_1: PlainText := Both("See the License ", "for the specific ")
  const PERMISSIONS_2: PlainText := Both("language governing ", "permissions and")
  const LIMITATIONS_1: PlainText := Both("limitations ", "under ")
  const LIMITATIONS_2: PlainText := Both("the ", "License.")

  const LICENSE_LINES: seq<LicenseLine> := [
    Line(LICENSED_1, LICENSED_2),
    Line(AGREEMENTS_1, AGREEMENTS_2),
    Line(OWNERSHIP_1, OWNERSHIP_2),
    Line(GRANT_1, GRANT_2),
    Line(COMPLIANCE_1, COMPLIANCE_2),
    Line(COPY_1, COPY_2),
    "",
    Line(ADDRESS_1, ADDRESS_2),
    "",
    Line(UNLESS_1, UNLESS_2),
    Line(AS_IS_1, AS_IS_2),
    Line(WARRANTIES_1, WARRANTIES_2),
    Line(PERMISSIONS_1, PERMISSIONS_2),
    Line(LIMITATIONS_1, LIMITATIONS_2)]

  // ----- The headers -----

  /** The lines behind a comment mark. */
  function Marked(mark: string, lines: seq<LicenseLine>): (r: seq<string>)
    ensures |r| == |lines|
  {
    if lines == [] then [] else [mark + lines[0]] + Marked(mark, lines[1..])
  }

  function BlockText(lines: seq<LicenseLine>): string {
    "/*\n" + Join(Marked(" *", lines), '\n') + "\n */"
  }

  function HashText(lines: seq<LicenseLine>): string {
    Join(Marked("#", lines), '\n')
  }

  const BLOCK_HEADER: string := BlockText(LICENSE_LINES)
  const HASH_HEADER: string := HashText(LICENSE_LINES)

  // ----- The block header -----

  /** No star at the end or in front of a slash. */
  predicate Open(s: string) {
    forall i :: 0 <= i < |s| && s[i] == '*' ==> i + 1 < |s| && s[i + 1] != '/'
  }

  lemma OpenParts(a: string, b: string)
    requires Open(a) && Open(b)
    ensures Open(a + b)
  {
  }

  lemma {:induction false} CloseAtEnd(s: string)
    requires Open(s)
    ensures Find(s + "*/", "*/") == Some(|s|)
  {
    var t := s + "*/";
    if s == "" {
      assert t == "*/";
    } else {
      CloseAtEnd(s[1..]);
      assert t[1..] == s[1..] + "*/";
      assert !("*/" <= t) by {
        assert "*/"[0] == '*' && "*/"[1] == '/';
        if s[0] == '*' { assert t[1] == s[1]; }
      }
    }
  }

  /** The lines of a header, each with its mark and its line feed. */
  function MarkedText(mark: string, lines: seq<LicenseLine>): string {
    if lines == [] then "" else mark + lines[0] + "\n" + MarkedText(mark, lines[1..])
  }

  lemma {:induction false} MarkedTextIsJoin(mark: string, lines: seq<LicenseLine>)
    requires lines != []
    ensures Join(Marked(mark, lines), '\n') + "\n" == MarkedText(mark, lines)
  {
    var rest := Marked(mark, lines[1..]);
    assert Marked(mark, lines)[0] == mark + lines[0] && Marked(mark, lines)[1..] == rest;
    if |lines| == 1 {
      assert MarkedText(mark, lines[1..]) == "";
    } else {
      MarkedTextIsJoin(mark, lines[1..]);
      assert (mark + lines[0]) + "\n" + Join(rest, '\n') + "\n" == (mark + lines[0]) + "\n" + (Join(rest, '\n') + "\n");
    }
  }

  lemma Prepend(mark: string, a: string, b: string)
    ensures mark + a + b == mark + (a + b)
  {
  }

  lemma {:induction false} MarkedTextIsOpen(lines: seq<LicenseLine>)
    ensures Open(MarkedText(" *", lines)) && 'M' !in MarkedText(" *", lines) && '\r' !in MarkedText(" *", lines)
  {
    if lines != [] {
      MarkedTextIsOpen(lines[1..]);
      OpenLineText(lines[0]);
      OpenParts(" *" + lines[0] + "\n", MarkedText(" *", lines[1..]));
    }
  }

  lemma OpenLineText(line: LicenseLine)
    ensures var s := " *" + line + "\n"; Open(s) && 'M' !in s && '\r' !in s
  {
    var s := " *" + line + "\n";
    forall i | 0 <= i < |s| ensures s[i] != 'M' && s[i] != '\r' && (s[i] == '*' ==> i + 1 < |s| && s[i + 1] != '/') {
      if 2 <= i < |s| - 1 { assert s[i] == line[i - 2]; }
    }
  }

  lemma FoundationIsFirst()
    ensures LICENSE_LINES != [] && LICENSE_LINES[0] == " " + FOUNDATION
  {
    Prepend(" ", LICENSED_1, LICENSED_2);
  }

  lemma BlockTextParts(lines: seq<LicenseLine>)
    requires lines != []
    ensures BlockText(lines) == "/*\n" + MarkedText(" *", lines) + " " + "*/"
  {
    var joined := Join(Marked(" *", lines), '\n');
    MarkedTextIsJoin(" *", lines);
    assert "/*\n" + joined + "\n */" == "/*\n" + (joined + "\n") + " " + "*/";
  }

  lemma BlockTextIsClosed(lines: seq<LicenseLine>)
    requires lines != []
    ensures var h := BlockText(lines);
            && |h| >= 7 && HasPrefix(h, "/*\n *") && Find(h, "*/") == Some(|h| - 2)
            && 'M' !in h && '\r' !in h
  {
    var all := MarkedText(" *", lines);
    var front := "/*\n" + all + " ";
    BlockTextParts(lines);
    assert Open(front) && 'M' !in front && '\r' !in front by {
      MarkedTextIsOpen(lines);
      OpenParts("/*\n", all);
      OpenParts("/*\n" + all, " ");
    }
    CloseAtEnd(front);
    assert all[0] == " *"[0] && all[1] == " *"[1];
  }

  lemma BlockTextNamesFoundation(lines: seq<LicenseLine>)
    requires lines != [] && lines[0] == " " + FOUNDATION
    ensures Contains(BlockText(lines), FOUNDATION)
  {
    BlockTextParts(lines);
    FirstLineWithin("/*\n", " *", " ", FOUNDATION, "\n", MarkedText(" *", lines[1..]), " ", "*/");
  }

  lemma FirstLineWithin(a: string, b: string, c: string, part: string, d: string, e: string, f: string, g: string)
    ensures Contains(a + (b + (c + part) + d + e) + f + g, part)
  {
    ContainsItself(part);
    ContainsWithin(part, part, a + b + c, d + e + f + g);
    assert a + (b + (c + part) + d + e) + f + g == (a + b + c) + part + (d + e + f + g);
  }

  lemma BlockHeaderIsOne()
    ensures BlockHeader(BLOCK_HEADER)
  {
    FoundationIsFirst();
    BlockTextIsClosed(LICENSE_LINES);
    BlockTextNamesFoundation(LICENSE_LINES);
  }

  lemma ContainsItself(s: string)
    ensures Contains(s, s)
  {
    assert s[0..|s|] == s;
    assert OccursAt(s, s, 0);
  }

  // ----- The hash header -----

  /** The lines of the hash header as a list of lines with their breaks. */
  lemma {:induction false} HashLines(lines: seq<LicenseLine>)
    ensures var all := Lines(MarkedText("#", lines));
            && |all| == |lines|
            && (forall line :: line in all ==> KindOf(line) == Comment && 'M' !in line)
            && (lines != [] ==> all[0] == "#" + lines[0] + "\n")
    ensures '\r' !in MarkedText("#", lines)
  {
    if lines != [] {
      var first, rest := "#" + lines[0] + "\n", MarkedText("#", lines[1..]);
      HashLine(lines[0]);
      LinesOfAppend(first, rest);
      LinesOfLine(first);
      HashLines(lines[1..]);
    }
  }

  lemma HashLine(line: LicenseLine)
    ensures var s := "#" + line + "\n"; IsLine(s) && EndsLine(s, "") && KindOf(s) == Comment && 'M' !in s && '\r' !in s
  {
    var s := "#" + line + "\n";
    UnbrokenIsLine("#" + line);
    assert s[0] == '#' && LStrip(s) == s && HasPrefix(s, "#");
    assert "//go:build"[0] == "// +build"[0] == '/';
  }

  lemma FirstHashLine(line: LicenseLine)
    ensures Body("#" + line + "\n") == "#" + line
  {
    var s := "#" + line + "\n";
    assert s[..|s| - 1] == "#" + line;
    assert |s| >= 2 && s[|s| - 2] != '\r' by {
      if line != "" { assert s[|s| - 2] == line[|line| - 1]; }
    }
  }

  lemma WithinLine(mark: string, space: string, part: string)
    ensures Contains(mark + (space + part), part)
  {
    ContainsItself(part);
    ContainsWithin(part, part, mark + space, "");
    assert mark + (space + part) == mark + space + part + "";
  }

  lemma HashTextStart(lines: seq<LicenseLine>)
    requires lines != [] && lines[0] != ""
    ensures HasPrefix(HashText(lines), "# ")
  {
    var h, all := HashText(lines), MarkedText("#", lines);
    MarkedTextIsJoin("#", lines);
    assert h + "\n" == all;
    assert all[0] == '#' && all[1] == lines[0][0] == ' ';
    assert all[|h|] == '\n';
    assert h[0] == all[0] && h[1] == all[1];
  }

  lemma HashTextIsHeader(lines: seq<LicenseLine>)
    requires lines != [] && lines[0] == " " + FOUNDATION
    ensures HashHeader(HashText(lines))
  {
    HashTextStart(lines);
    MarkedTextIsJoin("#", lines);
    HashLines(lines);
    FirstHashLine(lines[0]);
    WithinLine("#", " ", FOUNDATION);
    assert HashText(lines) <= MarkedText("#", lines);
  }

  lemma HashHeaderIsOne()
    ensures HashHeader(HASH_HEADER)
  {
    FoundationIsFirst();
    HashTextIsHeader(LICENSE_LINES);
  }

  // ----- Both -----

  const HEADERS: HeaderTexts := HeaderTexts(BLOCK_HEADER, HASH_HEADER)

  lemma HeadersAreReadable()
    ensures Readable(HEADERS)
  {
    BlockHeaderIsOne();
    HashHeaderIsOne();
  }

  /** Inserter and detector agree on the headers that the script carries. */
  lemma ScriptReadsBackIff(text: string, suffix: string)
    requires suffix in SUPPORTED_EXTENSIONS && Detect(text, suffix) == NoLicense
    ensures Detect(Licensed(HEADERS, text, suffix), suffix) == if Glued(text, suffix) then NoLicense else Apache
  {
    HeadersAreReadable();
    InsertedReadsApacheIff(HEADERS, text, suffix);
  }
}
