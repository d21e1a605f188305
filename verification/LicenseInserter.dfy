/** What the detector reads in the texts that the inserter writes, for any two headers that
    are readable. */
module LicenseInserter {
  import opened Options
  import opened Text
  import opened PyText
  import opened LeadingComment
  import opened LicenseHeader
  import opened HeaderRoundTrip
  import opened HashRoundTrip

  const BLOCK_COMMENT_EXTENSIONS := {".go", ".ts", ".tsx", ".js", ".jsx", ".mjs", ".cjs"}
  const HASH_COMMENT_EXTENSIONS := {".py", ".sh", ".yml", ".yaml"}
  const SUPPORTED_EXTENSIONS := BLOCK_COMMENT_EXTENSIONS + HASH_COMMENT_EXTENSIONS

  function HeaderFor(texts: HeaderTexts, suffix: string): Option<string> {
    if suffix in BLOCK_COMMENT_EXTENSIONS then Some(texts.block)
    else if suffix in HASH_COMMENT_EXTENSIONS then Some(texts.hash)
    else None
  }

  /** The text with the header for its kind of file. */
  function Licensed(texts: HeaderTexts, text: string, suffix: string): string
    requires suffix in SUPPORTED_EXTENSIONS
  {
    InsertHeader(text, HeaderFor(texts, suffix).value, suffix)
  }

  /** The header would continue the last line of the build constraints, which is not ended. */
  predicate Glued(text: string, suffix: string) {
    suffix == ".go" && !HasPrefix(text, "#!") && !EndsLine(BuildPrefix(text), "/")
  }

  // ----- Reading back -----

  lemma BeforeIsPlaced(text: string, suffix: string)
    requires suffix != ".go" || HasPrefix(text, "#!") || BuildPrefix(text) == ""
    ensures var before := Before(text, suffix);
            before == "" || (HasPrefix(before, "#!") && before[|before| - 1] == '\n' && '\n' !in before[..|before| - 1])
  {
    if HasPrefix(text, "#!") {
      var first := BeforeNewline(text);
      assert (first + "\n")[..|first|] == first;
      ShebangStart(text);
    }
  }

  lemma ShebangStart(text: string)
    requires HasPrefix(text, "#!")
    ensures HasPrefix(BeforeNewline(text), "#!")
  {
    assert "#!"[0] == '#' && "#!"[1] == '!';
    assert text[0] == '#' && text[1] == '!';
    assert text[1..][0] == '!';
    assert BeforeNewline(text) == ['#'] + (['!'] + BeforeNewline(text[1..][1..]));
  }

  /** The header and what follows it. */
  function Tail(header: string, rest: string): string {
    header + "\n" + if rest == "" then "" else "\n" + rest
  }

  lemma ComposeIsTail(before: string, header: string, rest: string)
    ensures Compose(before, header, rest) == before + Tail(header, rest)
  {
  }

  lemma BlockTail(h: string, rest: string)
    requires BlockHeader(h)
    ensures HasPrefix(Tail(h, rest), "/*\n")
    ensures Tail(h, rest) == h + ("\n" + if rest == "" then "" else "\n" + rest)
  {
    var more := "\n" + if rest == "" then "" else "\n" + rest;
    assert Tail(h, rest) == h + more;
    assert h[..3] == "/*\n *"[..3] == "/*\n";
    assert (h + more)[..3] == h[..3];
  }

  lemma BlockReadsBack(text: string, suffix: string, h: string)
    requires BlockHeader(h) && !Glued(text, suffix)
    ensures Detect(InsertHeader(text, h, suffix), suffix) == Apache
  {
    var before, rest := Before(text, suffix), Rest(text, suffix);
    var tail := Tail(h, rest);
    ComposeIsTail(before, h, rest);
    BlockTail(h, rest);
    if suffix == ".go" && !HasPrefix(text, "#!") && BuildPrefix(text) != "" {
      assert EndsLine(BuildPrefix(text), tail) by { assert tail[0] == "/*\n"[0] == '/'; }
      PrefixBeforeHeader(text, tail);
    } else {
      BeforeIsPlaced(text, suffix);
      CommentTextAtHeader(before, tail, suffix);
    }
    BlockIsApache(before + tail, suffix, h, "\n" + if rest == "" then "" else "\n" + rest);
  }

  lemma HashReadsBack(text: string, suffix: string, h: string)
    requires HashHeader(h) && suffix != ".go" && Detect(text, suffix) == NoLicense
    ensures Detect(InsertHeader(text, h, suffix), suffix) == Apache
  {
    var before, rest := Before(text, suffix), Rest(text, suffix);
    var tail := Tail(h, rest);
    ComposeIsTail(before, h, rest);
    assert HasPrefix(tail, "# ") by { assert tail[0] == h[0] && tail[1] == h[1]; }
    BeforeIsPlaced(text, suffix);
    CommentTextAtHeader(before, tail, suffix);
    RestWithoutMit(text, suffix);
    HashIsApache(before + tail, suffix, h, rest);
  }

  lemma GluedTextIsPrefix(text: string, suffix: string)
    requires Glued(text, suffix)
    ensures BuildPrefix(text) == text != "" && Before(text, suffix) == text && Rest(text, suffix) == ""
  {
    OpenPrefixIsAll(text);
  }

  lemma GluedReadsNothing(text: string, h: string)
    requires BlockHeader(h) && Glued(text, ".go")
    ensures Detect(InsertHeader(text, h, ".go"), ".go") == NoLicense
  {
    GluedTextIsPrefix(text, ".go");
    assert InsertHeader(text, h, ".go") == text + h + "\n" + "" == text + h + "\n";
    GluedIsNoLicense(text, h);
  }

  lemma HashSuffixes(suffix: string)
    requires suffix in HASH_COMMENT_EXTENSIONS && suffix !in BLOCK_COMMENT_EXTENSIONS
    ensures suffix != ".go"
  {
    assert ".go" in BLOCK_COMMENT_EXTENSIONS;
  }

  /** Inserter and detector agree: a file without a license reads as Apache after the insertion,
      exactly unless the header was glued to a build constraint; then it still has none. */
  lemma InsertedReadsApacheIff(texts: HeaderTexts, text: string, suffix: string)
    requires Readable(texts) && suffix in SUPPORTED_EXTENSIONS && Detect(text, suffix) == NoLicense
    ensures Detect(Licensed(texts, text, suffix), suffix) == if Glued(text, suffix) then NoLicense else Apache
  {
    if suffix in BLOCK_COMMENT_EXTENSIONS {
      if Glued(text, suffix) {
        GluedReadsNothing(text, texts.block);
      } else {
        BlockReadsBack(text, suffix, texts.block);
      }
    } else {
      HashSuffixes(suffix);
      HashReadsBack(text, suffix, texts.hash);
    }
  }

  /** An inserted header ends in a line feed, so that the next one is not glued. */
  lemma GluedOnce(texts: HeaderTexts, text: string, suffix: string)
    requires suffix in SUPPORTED_EXTENSIONS && Glued(text, suffix)
    ensures !Glued(Licensed(texts, text, suffix), suffix)
  {
    var h := HeaderFor(texts, suffix).value;
    var licensed := Licensed(texts, text, suffix);
    GluedTextIsPrefix(text, suffix);
    assert licensed == text + h + "\n" + "";
    assert licensed[|licensed| - 1] == '\n';
    if Glued(licensed, suffix) {
      GluedTextIsPrefix(licensed, suffix);
    }
  }

  lemma LoneConstraint(text: string)
    requires text != "" && KindOf(text) == Build && forall i :: 0 <= i < |text| ==> !IsBreak(text[i])
    ensures Glued(text, ".go") && Detect(text, ".go") == NoLicense
  {
    assert Lines(text) == [text] && PrefixEnd(Kinds(Lines(text))) == 1 by {
      UnbrokenIsLine(text);
      LinesOfLine(text);
    }
    assert BuildPrefix(text) == text && AfterBuildPrefix(text) == "" by {
      assert Lines(text)[..1] == [text] && Lines(text)[1..] == [];
      ConcatOfOne(text);
    }
    assert !HasPrefix(text, "#!") by { PrefixStart(text); }
    GoCommentText(text);
    NothingIsNoLicense();
  }

  /** A glued file: a lone constraint without a line feed. */
  lemma LoneConstraintIsGlued()
    ensures Glued("//go:build x", ".go") && Detect("//go:build x", ".go") == NoLicense
  {
    var text := "//go:build x";
    assert KindOf(text) == Build by { assert LStrip(text) == text && text[..10] == "//go:build"; }
    assert forall i :: 0 <= i < |text| ==> !IsBreak(text[i]);
    LoneConstraint(text);
  }

  // ----- Content -----

  function Newlines(n: nat): string {
    seq(n, i => '\n')
  }

  lemma {:induction false} StrippedNewlines(t: string) returns (n: nat)
    ensures t == Newlines(n) + LStripNewlines(t)
  {
    n := 0;
    if t != "" && t[0] == '\n' {
      var m := StrippedNewlines(t[1..]);
      n := m + 1;
      assert Newlines(n) == ['\n'] + Newlines(m);
      assert t == ['\n'] + t[1..];
      assert ['\n'] + (Newlines(m) + LStripNewlines(t)) == ['\n'] + Newlines(m) + LStripNewlines(t);
    }
  }

  lemma {:induction false} PartsAtNewline(t: string)
    ensures '\n' in t ==> t == BeforeNewline(t) + "\n" + AfterNewline(t)
    ensures '\n' !in t ==> t == BeforeNewline(t) && AfterNewline(t) == ""
  {
    if t != "" && t[0] != '\n' {
      PartsAtNewline(t[1..]);
      assert t == [t[0]] + t[1..];
    } else if t != "" {
      assert t == "\n" + t[1..];
    }
  }

  lemma PrefixAndRest(text: string)
    ensures text == BuildPrefix(text) + AfterBuildPrefix(text)
  {
    LinesOfParts(text, PrefixEnd(Kinds(Lines(text))));
  }

  /** The header stands between two parts of the text, between which only line feeds were lost;
      a shebang line without a line feed is given one. */
  lemma InsertionKeepsContent(text: string, header: string, suffix: string) returns (n: nat)
    ensures var before, rest := Before(text, suffix), Rest(text, suffix);
            && (text == before + Newlines(n) + rest || (HasPrefix(text, "#!") && text + "\n" == before && rest == ""))
            && InsertHeader(text, header, suffix)
               == before + header + (if rest == "" then Newlines(1) else Newlines(2) + rest)
            && (rest != "" ==> rest[0] != '\n')
  {
    var before, rest := Before(text, suffix), Rest(text, suffix);
    n := 0;
    if HasPrefix(text, "#!") {
      PartsAtNewline(text);
      n := StrippedNewlines(AfterNewline(text));
      if '\n' in text {
        KeepsAround(before, Newlines(n), rest, AfterNewline(text), text);
      }
    } else if suffix == ".go" && BuildPrefix(text) != "" {
      PrefixAndRest(text);
      n := StrippedNewlines(AfterBuildPrefix(text));
      KeepsAround(before, Newlines(n), rest, AfterBuildPrefix(text), text);
    } else {
      n := StrippedNewlines(text);
      KeepsAround(before, Newlines(n), rest, text, text);
    }
    RestStart(text, suffix);
    TwoNewlines(before, header, rest);
  }

  lemma KeepsAround(before: string, feeds: string, rest: string, after: string, text: string)
    requires text == before + after && after == feeds + rest
    ensures text == before + feeds + rest
  {
  }

  lemma {:induction false} NoNewlineLeft(t: string)
    ensures var r := LStripNewlines(t); r != "" ==> r[0] != '\n'
  {
    if t != "" && t[0] == '\n' {
      NoNewlineLeft(t[1..]);
    }
  }

  lemma RestStart(text: string, suffix: string)
    ensures var rest := Rest(text, suffix); rest != "" ==> rest[0] != '\n'
  {
    NoNewlineLeft(text);
    NoNewlineLeft(AfterNewline(text));
    NoNewlineLeft(AfterBuildPrefix(text));
  }

  lemma TwoNewlines(before: string, header: string, rest: string)
    ensures Compose(before, header, rest) == before + header + (if rest == "" then Newlines(1) else Newlines(2) + rest)
  {
    assert Newlines(1) == "\n" && Newlines(2) == "\n\n";
  }
}
