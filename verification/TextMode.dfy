/** Files read in text mode, where each line break is a line feed. The checker reads like this, the
    inserter does not; for carriage returns in front of line feeds it makes no difference to what
    either of them finds after an insertion. */
module TextMode {
  import opened Text
  import opened PyText
  import opened LeadingComment
  import opened LicenseHeader
  import opened HeaderRoundTrip
  import opened HashRoundTrip
  import opened LicenseInserter

  /** Reading in text mode: each carriage return, with a line feed or without, is a line feed. */
  function Universal(t: string): string {
    if t == "" then ""
    else if t[0] != '\r' then [t[0]] + Universal(t[1..])
    else if |t| > 1 && t[1] == '\n' then "\n" + Universal(t[2..])
    else "\n" + Universal(t[1..])
  }

  lemma {:induction false} UniversalOfPlain(t: string)
    requires '\r' !in t
    ensures Universal(t) == t
  {
    if t != "" {
      assert t[0] in t;
      UniversalOfPlain(t[1..]);
    }
  }

  /** A carriage return at the end of one part that a line feed follows in the next. */
  predicate Joined(a: string, b: string) {
    a != "" && a[|a| - 1] == '\r' && b != "" && b[0] == '\n'
  }

  /** Reading part by part: no line break must reach across. */
  lemma {:induction false} UniversalOfAppend(a: string, b: string)
    requires !Joined(a, b)
    ensures Universal(a + b) == Universal(a) + Universal(b)
    decreases |a|
  {
    if a == "" {
      assert a + b == b;
    } else {
      var k := if a[0] == '\r' && |a| > 1 && a[1] == '\n' then 2 else 1;
      assert (a + b)[k..] == a[k..] + b;
      UniversalOfAppend(a[k..], b);
      if a[0] == '\r' {
        Grouped("\n", Universal(a[k..]), Universal(b));
      } else {
        Grouped([a[0]], Universal(a[k..]), Universal(b));
      }
    }
  }

  lemma Grouped(a: string, b: string, c: string)
    ensures a + (b + c) == a + b + c
  {
  }

  // ----- Lines -----

  lemma {:induction false} BreakIsLast(line: string, i: nat)
    requires IsLine(line) && i < |line| && IsBreak(line[i])
    ensures i == |line| - 1 || (i == |line| - 2 && line[i] == '\r' && line[i + 1] == '\n')
  {
    if !IsBreak(line[0]) {
      BreakIsLast(line[1..], i - 1);
    }
  }

  /** A line that ends in a carriage return, with or without a line feed. */
  lemma UniversalOfReturn(line: string, body: string, end: string)
    requires IsLine(line) && line == body + end && (end == "\r" || end == "\r\n")
    ensures Universal(line) == body + "\n" && Body(line) == body
    ensures forall i :: 0 <= i < |body| ==> !IsBreak(body[i])
  {
    forall i | 0 <= i < |body| ensures !IsBreak(body[i]) {
      if IsBreak(line[i]) { BreakIsLast(line, i); }
    }
    ReturnAtEnd(body, end);
    BodyOfReturn(body, end);
  }

  /** Reading a line in text mode at most changes its break. */
  lemma UniversalOfLine(line: string)
    requires IsLine(line)
    ensures var line' := Universal(line);
            && IsLine(line') && Body(line') == Body(line) && KindOf(line') == KindOf(line)
            && line'[|line'| - 1] != '\r' && IsBreak(line'[|line'| - 1]) == IsBreak(line[|line| - 1])
  {
    var n := |line|;
    if line[n - 1] == '\r' || (n >= 2 && line[n - 2] == '\r') {
      if line[n - 1] != '\r' { BreakIsLast(line, n - 2); }
      var end := if line[n - 1] == '\r' then "\r" else "\r\n";
      var body := line[..n - |end|];
      assert line == body + end;
      UniversalOfReturn(line, body, end);
      UnbrokenIsLine(body);
      BodyOfLine(body);
    } else {
      forall i | 0 <= i < n ensures line[i] != '\r' {
        if line[i] == '\r' { BreakIsLast(line, i); }
      }
      UniversalOfPlain(line);
    }
    KindOfBody(line);
    KindOfBody(Universal(line));
  }

  lemma ReturnAtEnd(body: string, end: string)
    requires (forall i :: 0 <= i < |body| ==> body[i] != '\r') && (end == "\r" || end == "\r\n")
    ensures Universal(body + end) == body + "\n"
  {
    UniversalOfPlain(body);
    UniversalOfAppend(body, end);
    assert end[|end|..] == "" && "\n" + "" == "\n";
  }

  lemma BodyOfReturn(body: string, end: string)
    requires (forall i :: 0 <= i < |body| ==> !IsBreak(body[i])) && (end == "\r" || end == "\r\n")
    ensures Body(body + end) == body
  {
    var line := body + end;
    var n := |line|;
    assert line[..n - |end|] == body;
    if end == "\r\n" {
      assert line[n - 2] == '\r' && line[n - 1] == '\n';
    } else {
      assert line[n - 1] == '\r';
    }
  }

  lemma BodyOfLine(body: string)
    requires forall i :: 0 <= i < |body| ==> !IsBreak(body[i])
    ensures Body(body + "\n") == body
  {
    var line := body + "\n";
    assert line[..|line| - 1] == body;
    if body != "" { assert line[|line| - 2] == body[|body| - 1]; }
  }

  function UniversalAll(lines: seq<string>): (r: seq<string>)
    ensures |r| == |lines| && forall i :: 0 <= i < |lines| ==> r[i] == Universal(lines[i])
  {
    seq(|lines|, i requires 0 <= i < |lines| => Universal(lines[i]))
  }

  lemma UniversalIsNothing(t: string)
    ensures Universal(t) == "" <==> t == ""
  {
  }

  lemma {:induction false} LinesOfUniversal(t: string)
    ensures Lines(Universal(t)) == UniversalAll(Lines(t))
    decreases |t|
  {
    if t != "" {
      var first, rest := t[..LineEnd(t)], t[LineEnd(t)..];
      FirstLine(t);
      LinesOfUniversal(rest);
      assert Universal(t) == Universal(first) + Universal(rest) by {
        assert t == first + rest;
        UniversalOfAppend(first, rest);
      }
      UniversalOfLine(first);
      UniversalIsNothing(rest);
      LinesOfFirstRead(Universal(first), Universal(rest));
      UniversalOfCons(first, Lines(rest));
    }
  }

  lemma UniversalOfCons(first: string, lines: seq<string>)
    ensures UniversalAll([first] + lines) == [Universal(first)] + UniversalAll(lines)
  {
  }

  lemma {:induction false} LinesAreLines(t: string, i: nat)
    requires i < |Lines(t)|
    ensures IsLine(Lines(t)[i])
    decreases |t|
  {
    FirstLine(t);
    if i > 0 {
      LinesAreLines(t[LineEnd(t)..], i - 1);
    }
  }

  lemma LinesOfFirstRead(first: string, rest: string)
    requires IsLine(first) && (rest == "" || (IsBreak(first[|first| - 1]) && first[|first| - 1] != '\r'))
    ensures Lines(first + rest) == [first] + Lines(rest)
  {
    LinesOfLine(first);
    if rest == "" {
      assert first + rest == first && [first] + Lines(rest) == [first];
    } else {
      LinesOfAppend(first, rest);
    }
  }

  /** The lines of any text are of the same kinds, and the same without their breaks. */
  lemma LinesReadAlike(t: string)
    ensures Kinds(Lines(Universal(t))) == Kinds(Lines(t)) && Bodies(Lines(Universal(t))) == Bodies(Lines(t))
  {
    var lines, lines' := Lines(t), Lines(Universal(t));
    LinesOfUniversal(t);
    forall i | 0 <= i < |lines| ensures KindOf(lines'[i]) == KindOf(lines[i]) && Body(lines'[i]) == Body(lines[i]) {
      LinesAreLines(t, i);
      UniversalOfLine(lines[i]);
    }
  }

  lemma LeadReadsAlike(t: string)
    requires NoMit(Lead(t))
    ensures NoMit(Lead(Universal(t)))
  {
    LinesReadAlike(t);
    forall line | line in Lead(Universal(t)) ensures !Contains(Body(line), MIT_MARKER) {
      var i :| 0 <= i < |Lead(Universal(t))| && Lead(Universal(t))[i] == line;
      assert Bodies(Lines(Universal(t)))[i] == Bodies(Lines(t))[i];
      assert Lead(t)[i] in Lead(t);
    }
  }

  // ----- The build-constraint prefix -----

  lemma {:induction false} ConcatOfUniversal(lines: seq<string>)
    requires LineList(lines)
    ensures Concat(UniversalAll(lines)) == Universal(Concat(lines))
  {
    if lines != [] {
      var first, rest := lines[0], lines[1..];
      assert lines == [first] + rest;
      ConcatOfUniversal(rest);
      if rest != [] {
        ConcatStart(rest);
      }
      UniversalOfAppend(first, Concat(rest));
      UniversalOfCons(first, rest);
    }
  }

  lemma PrefixReadsAlike(t: string)
    ensures BuildPrefix(Universal(t)) == Universal(BuildPrefix(t))
  {
    var k := PrefixEnd(Kinds(Lines(t)));
    LinesReadAlike(t);
    LinesOfUniversal(t);
    LinesAreList(t);
    PartsOfLineList(Lines(t), k);
    ConcatOfUniversal(Lines(t)[..k]);
    UniversalOfFront(Lines(t), k);
  }

  lemma UniversalOfFront(lines: seq<string>, k: nat)
    requires k <= |lines|
    ensures UniversalAll(lines)[..k] == UniversalAll(lines[..k])
  {
  }

  lemma {:induction false} EndsLineInTextMode(t: string)
    ensures EndsLine(t, "/") <==> EndsLine(Universal(t), "/")
    decreases |t|
  {
    if t != "" {
      var k := if t[0] == '\r' && |t| > 1 && t[1] == '\n' then 2 else 1;
      EndsLineInTextMode(t[k..]);
      UniversalIsNothing(t[k..]);
    }
  }

  // ----- Insertions in text mode -----

  /** The result of an insertion in text mode: the same header between the same parts in text mode. */
  lemma LicensedInTextMode(texts: HeaderTexts, text: string, suffix: string)
    requires Readable(texts) && suffix in SUPPORTED_EXTENSIONS
    ensures Universal(Licensed(texts, text, suffix))
         == Universal(Before(text, suffix)) + Tail(HeaderFor(texts, suffix).value, Universal(Rest(text, suffix)))
  {
    var before, h, rest := Before(text, suffix), HeaderFor(texts, suffix).value, Rest(text, suffix);
    assert '\r' !in h;
    ComposeIsTail(before, h, rest);
    HeaderStart(texts, suffix, rest);
    UniversalOfAppend(before, Tail(h, rest));
    TailInTextMode(h, rest);
  }

  lemma HeaderStart(texts: HeaderTexts, suffix: string, rest: string)
    requires Readable(texts) && suffix in SUPPORTED_EXTENSIONS
    ensures var tail := Tail(HeaderFor(texts, suffix).value, rest); tail != "" && (tail[0] == '/' || tail[0] == '#')
  {
    assert "/*\n *"[0] == '/' && "# "[0] == '#';
  }

  lemma TailInTextMode(h: string, rest: string)
    requires '\r' !in h
    ensures Universal(Tail(h, rest)) == Tail(h, Universal(rest))
  {
    UniversalIsNothing(rest);
    UniversalOfPlain(h + "\n");
    if rest == "" {
      assert h + "\n" + "" == h + "\n";
    } else {
      UniversalOfAppend(h + "\n", "\n" + rest);
      UniversalOfAppend("\n", rest);
      UniversalOfPlain("\n");
    }
  }

  // ----- Shebang lines -----

  /** What text mode finds on the shebang line after its first inner carriage return, with the
      line feed; nothing if there is none, or if it is followed by line breaks only. */
  function AfterReturn(text: string): string {
    LStripNewlines(AfterNewline(Universal(BeforeNewline(text) + "\n")))
  }

  /** There is nothing to be found there. */
  predicate ClearShebang(text: string) {
    HasPrefix(text, "#!") ==> AfterReturn(text) == ""
  }

  lemma {:induction false} AfterNewlineOfAppend(a: string, b: string)
    requires '\n' in a
    ensures AfterNewline(a + b) == AfterNewline(a) + b
  {
    if a[0] == '\n' {
      assert (a + b)[1..] == a[1..] + b;
    } else {
      assert (a + b)[1..] == a[1..] + b && '\n' in a[1..];
      AfterNewlineOfAppend(a[1..], b);
    }
  }

  lemma {:induction false} StripOfAppend(a: string, b: string)
    requires b == "" || b[0] != '\n'
    ensures LStripNewlines(a + b) == LStripNewlines(a) + b
  {
    if a == "" {
      assert a + b == b;
    } else if a[0] == '\n' {
      assert (a + b)[1..] == a[1..] + b;
      StripOfAppend(a[1..], b);
    }
  }

  lemma UniversalShebang(text: string)
    requires HasPrefix(text, "#!")
    ensures var before := Universal(BeforeNewline(text) + "\n");
            HasPrefix(before, "#!") && '\n' in before && before[0] == '#'
  {
    var line := BeforeNewline(text) + "\n";
    ShebangStart(text);
    var rest := line[2..];
    assert line[..2] == "#!" && line == "#!" + rest;
    UniversalOfAppend("#!", rest);
    UniversalOfPlain("#!");
    FeedStays(BeforeNewline(text));
    assert ("#!" + Universal(rest))[..2] == "#!";
    assert "#!"[0] == '#';
  }

  lemma FeedStays(line: string)
    ensures '\n' in Universal(line + "\n")
  {
    LastIsFeed(line + "\n");
  }

  lemma {:induction false} LastIsFeed(t: string)
    requires t != "" && t[|t| - 1] == '\n'
    ensures '\n' in Universal(t)
    decreases |t|
  {
    var k := if t[0] == '\r' && |t| > 1 && t[1] == '\n' then 2 else 1;
    if t[0] != '\r' && t[0] != '\n' {
      LastIsFeed(t[1..]);
    }
  }

  /** Where the comment is expected behind a shebang line and what follows an inner return of it. */
  lemma CommentTextAfterShebang(text: string, tail: string, suffix: string)
    requires HasPrefix(text, "#!") && tail != "" && tail[0] != '\n'
    ensures var t := AfterReturn(text) + tail;
            CommentText(Universal(BeforeNewline(text) + "\n") + tail, suffix)
            == if suffix == ".go" then LStripNewlines(AfterBuildPrefix(t)) else t
  {
    var before := Universal(BeforeNewline(text) + "\n");
    UniversalShebang(text);
    assert (before + tail)[..2] == before[..2] && (before + tail)[0] == '#';
    AfterNewlineOfAppend(before, tail);
    StripOfAppend(AfterNewline(before), tail);
  }

  /** At a header that nothing but a clear shebang line precedes, the comment is expected. */
  lemma CommentTextInTextMode(text: string, tail: string, suffix: string)
    requires ClearShebang(text) && (suffix != ".go" || HasPrefix(text, "#!") || BuildPrefix(text) == "")
    requires HasPrefix(tail, "/*\n") || (HasPrefix(tail, "# ") && suffix != ".go")
    ensures CommentText(Universal(Before(text, suffix)) + tail, suffix) == tail
  {
    if HasPrefix(text, "#!") {
      assert tail[0] != '\n' by { assert "/*\n"[0] == '/' && "# "[0] == '#'; }
      CommentTextAfterShebang(text, tail, suffix);
      assert AfterReturn(text) + tail == tail;
      if suffix == ".go" {
        BlockStart(tail);
      }
    } else {
      assert Universal("") == "";
      CommentTextAtHeader("", tail, suffix);
    }
  }

  // ----- Reading back in text mode -----

  lemma BlockReadsBackInTextMode(text: string, suffix: string, h: string, rest: string)
    requires BlockHeader(h) && ClearShebang(text) && !Glued(text, suffix)
    ensures Detect(Universal(Before(text, suffix)) + Tail(h, rest), suffix) == Apache
  {
    var before, tail := Universal(Before(text, suffix)), Tail(h, rest);
    BlockTail(h, rest);
    if suffix == ".go" && !HasPrefix(text, "#!") && BuildPrefix(text) != "" {
      PrefixReadsAlike(text);
      UniversalIsNothing(BuildPrefix(text));
      assert EndsLine(before, tail) by {
        assert tail[0] == "/*\n"[0] == '/';
        EndsLineInTextMode(BuildPrefix(text));
      }
      PrefixBeforeHeader(Universal(text), tail);
    } else {
      CommentTextInTextMode(text, tail, suffix);
    }
    BlockIsApache(before + tail, suffix, h, "\n" + if rest == "" then "" else "\n" + rest);
  }

  /** Inserter and checker agree: after an insertion the checker's reading finds what the inserter's
      own reading finds, whatever carriage returns there are behind the shebang line. */
  lemma InsertedReadsAlike(texts: HeaderTexts, text: string, suffix: string)
    requires Readable(texts) && suffix in SUPPORTED_EXTENSIONS && ClearShebang(text)
    requires Detect(text, suffix) == NoLicense
    ensures Detect(Universal(Licensed(texts, text, suffix)), suffix)
         == if Glued(text, suffix) then NoLicense else Apache
  {
    var h, rest := HeaderFor(texts, suffix).value, Rest(text, suffix);
    LicensedInTextMode(texts, text, suffix);
    if suffix in BLOCK_COMMENT_EXTENSIONS {
      if Glued(text, suffix) {
        GluedInTextMode(text, h);
      } else {
        BlockReadsBackInTextMode(text, suffix, h, Universal(rest));
      }
    } else {
      HashSuffixes(suffix);
      HashReadsBackInTextMode(text, suffix, h);
    }
  }

  lemma HashReadsBackInTextMode(text: string, suffix: string, h: string)
    requires HashHeader(h) && suffix != ".go" && ClearShebang(text) && Detect(text, suffix) == NoLicense
    ensures Detect(Universal(Before(text, suffix)) + Tail(h, Universal(Rest(text, suffix))), suffix) == Apache
  {
    var rest := Rest(text, suffix);
    var tail := Tail(h, Universal(rest));
    assert HasPrefix(tail, "# ") by { assert tail[0] == h[0] && tail[1] == h[1]; }
    CommentTextInTextMode(text, tail, suffix);
    RestWithoutMit(text, suffix);
    LeadReadsAlike(rest);
    HashIsApache(Universal(Before(text, suffix)) + tail, suffix, h, Universal(rest));
  }

  lemma GluedInTextMode(text: string, h: string)
    requires BlockHeader(h) && Glued(text, ".go")
    ensures Detect(Universal(Before(text, ".go")) + Tail(h, Universal(Rest(text, ".go"))), ".go") == NoLicense
  {
    GluedTextIsPrefix(text, ".go");
    PrefixReadsAlike(text);
    UniversalIsNothing(text);
    EndsLineInTextMode(text);
    assert Universal("") == "";
    assert Universal(text) + Tail(h, "") == Universal(text) + h + "\n";
    GluedIsNoLicense(Universal(text), h);
  }

  /** A glued text has no shebang line, nor has what the inserter makes of it. */
  lemma GluedHasNoShebang(texts: HeaderTexts, text: string, suffix: string)
    requires suffix in SUPPORTED_EXTENSIONS && Glued(text, suffix)
    ensures !HasPrefix(Licensed(texts, text, suffix), "#!")
  {
    var h := HeaderFor(texts, suffix).value;
    GluedTextIsPrefix(text, suffix);
    PrefixIsNotEmpty(text);
    PrefixStart(text);
    assert Licensed(texts, text, suffix)[0] == text[0] != '#' == "#!"[0];
  }
}
