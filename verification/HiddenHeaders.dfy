/** What the checker reads in a script whose shebang line has a carriage return inside: in text mode
    that line goes on behind the return, in front of the header. */
module HiddenHeaders {
  import opened Options
  import opened Text
  import opened PyText
  import opened LeadingComment
  import opened LicenseHeader
  import opened HeaderRoundTrip
  import opened HashRoundTrip
  import opened LicenseInserter
  import opened TextMode

  // ----- A comment in front of a header -----

  /** A span that ends inside the first part, or at the second one, whose first line is of another kind. */
  lemma SpanInside(a: seq<Kind>, b: seq<Kind>, i: nat, these: set<Kind>)
    requires i <= |a| && (Span(a, i, these) < |a| || (b != [] && b[0] !in these))
    ensures Span(a + b, i, these) == Span(a, i, these)
  {
    SpanIs(a + b, i, Span(a, i, these), these);
  }

  lemma EndIsLead(t: string)
    ensures CommentEnd(Kinds(Lines(t))) == |Lead(t)|
  {
    var kinds := Kinds(Lines(t));
    SpanFrom(kinds, 0, CommentStart(kinds), LEADING);
  }

  /** The comment stops inside the first part of a text, or at the second one. */
  lemma CommentInside(t: string, front: string, tail: string)
    requires Lines(t) == Lines(front) + Lines(tail)
    requires Lead(front) != Lines(front) || (Lines(tail) != [] && KindOf(Lines(tail)[0]) == Other)
    ensures CommentLines(t) == CommentLines(front)
  {
    var a, b := Kinds(Lines(front)), Kinds(Lines(tail));
    KindsOfAppend(Lines(front), Lines(tail));
    EndIsLead(front);
    LeadOrAll(front);
    SpanInside(a, b, 0, {Blank});
    SpanInside(a, b, CommentStart(a), LEADING);
    BodiesOfAppend(Lines(front), Lines(tail));
    SliceInside(Bodies(Lines(front)), Bodies(Lines(tail)), CommentStart(a), CommentEnd(a));
  }

  /** If not all lines lead the text, the blank ones at its start stop inside it as well. */
  lemma LeadOrAll(t: string)
    ensures |Lead(t)| == |Lines(t)| ==> Lead(t) == Lines(t)
    ensures CommentStart(Kinds(Lines(t))) <= |Lead(t)|
  {
    EndIsLead(t);
  }

  lemma BodiesOfAppend(a: seq<string>, b: seq<string>)
    ensures Bodies(a + b) == Bodies(a) + Bodies(b)
  {
  }

  lemma SliceInside<T>(a: seq<T>, b: seq<T>, i: nat, j: nat)
    requires i <= j <= |a|
    ensures (a + b)[i..j] == a[i..j]
  {
  }

  /** A leading line that is not blank is in the comment. */
  lemma LeadLineIsRead(t: string, i: nat, part: string)
    requires i < |Lead(t)| && KindOf(Lead(t)[i]) != Blank && Contains(Body(Lead(t)[i]), part)
    ensures Contains(Join(CommentLines(t), '\n'), part)
  {
    CommentIsLead(t, i);
    LineInJoin(CommentLines(t), i - CommentStart(Kinds(Lines(t))), part);
  }

  /** Comment lines in front of a hash header become part of one comment with it. */
  lemma HashAfterComment(t: string, front: string, h: string, rest: string)
    requires HashHeader(h) && NoMit(Lead(rest))
    requires var tail := Tail(h, rest); t == front + tail && Lines(t) == Lines(front) + Lines(tail)
    requires Lead(front) == Lines(front)
    ensures Judge(Join(CommentLines(t), '\n')) == if NoMit(Lines(front)) then Apache else Mit
  {
    var tail := Tail(h, rest);
    assert Lead(t) == Lines(front) + Lead(tail) by {
      forall line | line in Lines(front) ensures KindOf(line) in LEADING {
        LeadKinds(front, line);
      }
      LeadOfAppend(t, Lines(front), tail);
    }
    assert Contains(Join(CommentLines(t), '\n'), FOUNDATION) by { HeaderBehind(t, Lines(front), tail, h, rest); }
    if NoMit(Lines(front)) {
      HeaderLeadsWithoutMit(tail, h, rest);
      NoMitOfParts(Lines(front), Lead(tail));
      NoMitInComment(t);
      FoundationIsApache(Join(CommentLines(t), '\n'));
    } else {
      var line :| line in Lines(front) && Contains(Body(line), MIT_MARKER);
      var i :| 0 <= i < |Lines(front)| && Lines(front)[i] == line;
      assert Lead(t)[i] == line;
      MitIsNotBlank(line);
      LeadLineIsRead(t, i, MIT_MARKER);
    }
  }

  lemma LeadKinds(t: string, line: string)
    requires line in Lead(t)
    ensures KindOf(line) in LEADING
  {
    var i :| 0 <= i < |Lead(t)| && Lead(t)[i] == line;
    assert Kinds(Lines(t))[i] in LEADING;
  }

  lemma MitIsNotBlank(line: string)
    requires Contains(Body(line), MIT_MARKER)
    ensures KindOf(line) != Blank
  {
    if KindOf(line) == Blank {
      BlankHasNoM(line);
      NoMInBody(line);
    }
  }

  lemma HeaderBehind(t: string, front: seq<string>, tail: string, h: string, rest: string)
    requires HashHeader(h) && tail == Tail(h, rest) && Lead(t) == front + Lead(tail)
    ensures Contains(Join(CommentLines(t), '\n'), FOUNDATION)
  {
    LeadAtHeader(h, rest);
    var hl := Lines(h + "\n");
    assert hl[0] in hl;
    assert Lead(tail)[0] == hl[0] && Lead(t)[|front|] == hl[0];
    LeadLineIsRead(t, |front|, FOUNDATION);
  }

  // ----- What the checker reads -----

  /** The license that the checker reads behind such a shebang line, for a block header and for a
      hash header: a block header ends a comment of other lines, a hash header continues it. */
  function BehindReturn(front: string, hash: bool): License {
    if hash && Lead(front) == Lines(front) then if NoMit(Lines(front)) then Apache else Mit
    else Judge(Join(CommentLines(front), '\n'))
  }

  lemma AfterReturnEnds(text: string)
    requires AfterReturn(text) != ""
    ensures var y := AfterReturn(text); y[|y| - 1] == '\n' && y[0] != '\n'
  {
    var line := Universal(BeforeNewline(text) + "\n");
    assert line != "" && line[|line| - 1] == '\n' by { FeedAtEnd(BeforeNewline(text) + "\n"); }
    EndOfAfterNewline(line);
    EndOfStripped(AfterNewline(line));
    NoNewlineLeft(AfterNewline(line));
  }

  lemma {:induction false} FeedAtEnd(t: string)
    requires t != "" && t[|t| - 1] == '\n'
    ensures Universal(t) != "" && Universal(t)[|Universal(t)| - 1] == '\n'
    decreases |t|
  {
    var k := if t[0] == '\r' && |t| > 1 && t[1] == '\n' then 2 else 1;
    if k < |t| {
      FeedAtEnd(t[k..]);
    }
  }

  lemma {:induction false} EndOfAfterNewline(t: string)
    ensures var r := AfterNewline(t); r != "" ==> r[|r| - 1] == t[|t| - 1]
  {
    if t != "" && t[0] != '\n' {
      EndOfAfterNewline(t[1..]);
    }
  }

  lemma {:induction false} EndOfStripped(t: string)
    ensures var r := LStripNewlines(t); r != "" ==> r[|r| - 1] == t[|t| - 1]
  {
    if t != "" && t[0] == '\n' {
      EndOfStripped(t[1..]);
    }
  }

  /** A shebang line that goes on in text mode, though not with a block comment: exactly what the
      checker reads after the insertion, from what follows the return. */
  lemma ReadBehindReturn(texts: HeaderTexts, text: string, suffix: string)
    requires Readable(texts) && suffix in SUPPORTED_EXTENSIONS && suffix != ".go" && Detect(text, suffix) == NoLicense
    requires HasPrefix(text, "#!") && AfterReturn(text) != "" && !HasPrefix(AfterReturn(text), "/*")
    ensures Detect(Universal(Licensed(texts, text, suffix)), suffix)
         == BehindReturn(AfterReturn(text), suffix !in BLOCK_COMMENT_EXTENSIONS)
  {
    var h, rest := HeaderFor(texts, suffix).value, Universal(Rest(text, suffix));
    var front, tail := AfterReturn(text), Tail(h, rest);
    CommentBehindReturn(texts, text, suffix, tail);
    if suffix !in BLOCK_COMMENT_EXTENSIONS && Lead(front) == Lines(front) {
      assert NoMit(Lead(rest)) by {
        HashSuffixes(suffix);
        RestWithoutMit(text, suffix);
        LeadReadsAlike(Rest(text, suffix));
      }
      HashAfterComment(front + tail, front, h, rest);
    } else {
      if suffix in BLOCK_COMMENT_EXTENSIONS {
        assert Lines(tail) != [] && KindOf(Lines(tail)[0]) == Other by { BlockTail(h, rest); BlockStart(tail); }
      }
      CommentInside(front + tail, front, tail);
    }
  }

  lemma CommentBehindReturn(texts: HeaderTexts, text: string, suffix: string, tail: string)
    requires Readable(texts) && suffix in SUPPORTED_EXTENSIONS && suffix != ".go"
    requires HasPrefix(text, "#!") && AfterReturn(text) != "" && !HasPrefix(AfterReturn(text), "/*")
    requires tail == Tail(HeaderFor(texts, suffix).value, Universal(Rest(text, suffix)))
    ensures var t := AfterReturn(text) + tail;
            && CommentOf(Universal(Licensed(texts, text, suffix)), suffix) == Join(CommentLines(t), '\n')
            && Lines(t) == Lines(AfterReturn(text)) + Lines(tail)
  {
    LicensedInTextMode(texts, text, suffix);
    HeaderStart(texts, suffix, Universal(Rest(text, suffix)));
    CommentTextAfterShebang(text, tail, suffix);
    AfterReturnEnds(text);
    NoBlockBehind(AfterReturn(text), tail);
    LinesOfAppend(AfterReturn(text), tail);
  }

  lemma NoBlockBehind(front: string, tail: string)
    requires front != "" && front[|front| - 1] == '\n' && front[0] != '\n' && !HasPrefix(front, "/*")
    ensures !HasPrefix(front + tail, "/*")
  {
    assert |front| > 1;
    assert (front + tail)[..2] == front[..2];
  }

  /** With a block comment there, that is read; alone, if it is closed on the shebang line. */
  lemma ReadBlockBehindReturn(texts: HeaderTexts, text: string, suffix: string)
    requires Readable(texts) && suffix in SUPPORTED_EXTENSIONS && suffix != ".go"
    requires HasPrefix(text, "#!") && HasPrefix(AfterReturn(text), "/*")
    ensures var front, tail := AfterReturn(text), Tail(HeaderFor(texts, suffix).value, Universal(Rest(text, suffix)));
            var found := Detect(Universal(Licensed(texts, text, suffix)), suffix);
            && found == Judge(BlockOf(front + tail))
            && (Find(front, "*/").Some? ==> found == Judge(BlockOf(front)))
  {
    var h, rest := HeaderFor(texts, suffix).value, Universal(Rest(text, suffix));
    var front, tail := AfterReturn(text), Tail(h, rest);
    LicensedInTextMode(texts, text, suffix);
    HeaderStart(texts, suffix, rest);
    CommentTextAfterShebang(text, tail, suffix);
    assert HasPrefix(front + tail, "/*") by { assert (front + tail)[..2] == front[..2]; }
    if Find(front, "*/").Some? {
      BlockStays(front, tail);
    }
  }

  /** And if it is not closed there, it takes in a block header. */
  lemma OpenBlockTakesHeader(texts: HeaderTexts, text: string, suffix: string)
    requires Readable(texts) && suffix in BLOCK_COMMENT_EXTENSIONS && suffix != ".go"
    requires HasPrefix(text, "#!") && HasPrefix(AfterReturn(text), "/*") && Find(AfterReturn(text), "*/").None?
    ensures Detect(Universal(Licensed(texts, text, suffix)), suffix)
         == if Contains(AfterReturn(text), MIT_MARKER) then Mit else Apache
  {
    var h, rest := HeaderFor(texts, suffix).value, Universal(Rest(text, suffix));
    ReadBlockBehindReturn(texts, text, suffix);
    var init := AfterReturnInit(text);
    OpenBlockReads(init, h, rest);
  }

  lemma AfterReturnInit(text: string) returns (init: string)
    requires AfterReturn(text) != ""
    ensures AfterReturn(text) == init + "\n"
  {
    var front := AfterReturn(text);
    AfterReturnEnds(text);
    init := front[..|front| - 1];
  }

  lemma OpenBlockReads(init: string, h: string, rest: string)
    requires BlockHeader(h) && Find(init + "\n", "*/").None?
    ensures Judge(BlockOf(init + "\n" + Tail(h, rest))) == if Contains(init + "\n", MIT_MARKER) then Mit else Apache
  {
    BlockTail(h, rest);
    OpenBlockIs(init, h, "\n" + if rest == "" then "" else "\n" + rest);
    JudgeTakenIn(init, h);
  }

  lemma OpenBlockIs(init: string, h: string, more: string)
    requires Find(init + "\n", "*/").None? && |h| >= 2 && Find(h, "*/") == Some(|h| - 2)
    ensures BlockOf(init + "\n" + (h + more)) == init + "\n" + h
  {
    var front := init + "\n";
    FindBehind(front, h, "*/");
    ListAssoc(front, h, more);
    BlockTakenIn(front + (h + more), front + h, more);
  }

  lemma {:induction false} FindBehind(front: string, h: string, part: string)
    requires part == "*/" && Find(front, part).None? && Find(h, part).Some?
    requires front == "" || front[|front| - 1] == '\n'
    ensures Find(front + h, part) == Some(|front| + Find(h, part).value)
  {
    if front == "" {
      assert front + h == h;
    } else {
      FindBehind(front[1..], h, part);
      assert (front + h)[1..] == front[1..] + h;
      assert part[0] == '*' && part[1] == '/';
      assert |front| >= 2 ==> (front + h)[..2] == front[..2];
      assert |front| == 1 ==> (front + h)[0] == '\n';
    }
  }

  lemma BlockTakenIn(t: string, block: string, more: string)
    requires t == block + more && |block| >= 2 && Find(block, "*/") == Some(|block| - 2)
    ensures BlockOf(t) == block
  {
    FindOfAppend(block, more, "*/");
    assert t[..|block|] == block;
  }

  lemma JudgeTakenIn(init: string, h: string)
    requires Contains(h, FOUNDATION) && 'M' !in h
    ensures Judge(init + "\n" + h) == if Contains(init + "\n", MIT_MARKER) then Mit else Apache
  {
    var front := init + "\n";
    if Contains(front, MIT_MARKER) {
      ContainsWithin(front, MIT_MARKER, "", h);
      assert "" + front + h == front + h;
    } else {
      NoMitTakenIn(init, h);
      ContainsWithin(h, FOUNDATION, front, "");
      assert front + h + "" == front + h;
      FoundationIsApache(front + h);
    }
  }

  lemma NoMitTakenIn(init: string, h: string)
    requires !Contains(init + "\n", MIT_MARKER) && 'M' !in h
    ensures !Contains(init + "\n" + h, MIT_MARKER)
  {
    MitNeedsM(h);
    assert "" + init + "\n" == init + "\n";
    if Contains(init + "\n" + h, MIT_MARKER) {
      ContainsEither(init, '\n', h, MIT_MARKER);
      ContainsWithin(init, MIT_MARKER, "", "\n");
    }
  }

  lemma BlockStays(front: string, tail: string)
    requires HasPrefix(front, "/*") && Find(front, "*/").Some?
    ensures HasPrefix(front + tail, "/*") && BlockOf(front + tail) == BlockOf(front)
  {
    FindOfAppend(front, tail, "*/");
    FindFits(front, "*/");
    assert (front + tail)[..2] == front[..2];
    var end := Find(front, "*/").value + 2;
    assert (front + tail)[..end] == front[..end];
  }

  /** Code there hides the header. */
  lemma CodeHidesHeader(texts: HeaderTexts, text: string, suffix: string)
    requires Readable(texts) && suffix in SUPPORTED_EXTENSIONS && suffix != ".go" && Detect(text, suffix) == NoLicense
    requires HasPrefix(text, "#!") && AfterReturn(text) != "" && !HasPrefix(AfterReturn(text), "/*")
    requires KindOf(Lines(AfterReturn(text))[0]) == Other
    ensures Detect(Universal(Licensed(texts, text, suffix)), suffix) == NoLicense
  {
    ReadBehindReturn(texts, text, suffix);
    NoPrefixBefore(AfterReturn(text));
    assert Lead(AfterReturn(text)) == [];
    NothingIsNoLicense();
  }

  lemma LoneShebang(text: string, suffix: string)
    requires suffix != ".go" && HasPrefix(text, "#!") && '\n' !in text
    ensures Detect(text, suffix) == NoLicense
    ensures Before(text, suffix) == text + "\n" && Rest(text, suffix) == ""
  {
    PartsAtNewline(text);
    assert text[0] == "#!"[0] == '#';
    assert CommentText(text, suffix) == "";
    NothingIsNoLicense();
  }

  /** The least of such scripts: the inserter's detector reads Apache, the checker reads nothing. */
  lemma LoneReturnHidesHeader(texts: HeaderTexts, text: string, suffix: string)
    requires Readable(texts) && suffix in SUPPORTED_EXTENSIONS && suffix != ".go" && text == "#!\rx"
    ensures Detect(text, suffix) == NoLicense
    ensures Detect(Licensed(texts, text, suffix), suffix) == Apache
    ensures Detect(Universal(Licensed(texts, text, suffix)), suffix) == NoLicense
  {
    assert HasPrefix(text, "#!") by { assert text[..2] == "#!"; }
    LoneShebang(text, suffix);
    InsertedReadsApacheIff(texts, text, suffix);
    assert AfterReturn(text) == "x\n" by {
      PartsAtNewline(text);
      ReturnInShebang(text + "\n");
    }
    CodeLine("x\n");
    CodeHidesHeader(texts, text, suffix);
  }

  lemma ReturnInShebang(t: string)
    requires t == "#!\rx\n"
    ensures Universal(t) == "#!\nx\n" && LStripNewlines(AfterNewline(Universal(t))) == "x\n"
  {
    assert t == "#!\r" + "x\n";
    UniversalOfAppend("#!\r", "x\n");
    UniversalOfPlain("x\n");
    ReturnAtEnd("#!", "\r");
    AfterNewlineOf("#!", "x\n");
    assert "#!" + "\n" + "x\n" == "#!\nx\n";
  }

  lemma CodeLine(t: string)
    requires t == "x\n"
    ensures Lines(t) == [t] && KindOf(t) == Other && !HasPrefix(t, "/*")
  {
    UnbrokenIsLine("x");
    assert "x" + "\n" == t;
    LinesOfLine(t);
    assert LStrip(t) == t;
    assert "//go:build"[0] == "// +build"[0] == "//"[0] == '/' && "#"[0] == '#' && "/*"[0] == '/';
  }
}
