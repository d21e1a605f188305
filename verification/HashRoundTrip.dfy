/** A hash-comment header is read back as Apache, also when the file's own leading comment
    follows it and becomes part of the comment that is read. */
module HashRoundTrip {
  import opened Text
  import opened PyText
  import opened LeadingComment
  import opened LicenseHeader
  import opened HeaderRoundTrip

  // ----- The comment that is read -----

  lemma {:induction false} SpanFrom(kinds: seq<Kind>, i: nat, j: nat, these: set<Kind>)
    requires i <= j <= |kinds|
    requires forall k :: i <= k < j ==> kinds[k] in these
    ensures Span(kinds, i, these) == Span(kinds, j, these)
    decreases j - i
  {
    if i < j {
      SpanFrom(kinds, i + 1, j, these);
    }
  }

  /** All the lines that lead a text, blank ones included. */
  function Lead(t: string): (lines: seq<string>) {
    Lines(t)[..Span(Kinds(Lines(t)), 0, LEADING)]
  }

  /** The comment lines are the leading lines without the blank ones before the first comment. */
  lemma CommentIsLead(t: string, i: nat)
    requires i < |Lead(t)|
    ensures var a := CommentStart(Kinds(Lines(t)));
            if i < a then KindOf(Lead(t)[i]) == Blank
            else i - a < |CommentLines(t)| && CommentLines(t)[i - a] == Body(Lead(t)[i])
  {
    var lines := Lines(t);
    var kinds := Kinds(lines);
    var a := CommentStart(kinds);
    assert Span(kinds, 0, LEADING) == CommentEnd(kinds) by { SpanFrom(kinds, 0, a, LEADING); }
    assert Lead(t)[i] == lines[i];
    if a <= i {
      SliceAt(Bodies(lines), a, CommentEnd(kinds), i);
    }
  }

  lemma SliceAt<T>(xs: seq<T>, a: nat, b: nat, i: nat)
    requires a <= i < b <= |xs|
    ensures xs[a..b][i - a] == xs[i]
  {
  }

  lemma CommentWithinLead(t: string, body: string)
    requires body in CommentLines(t)
    ensures exists line :: line in Lead(t) && body == Body(line)
  {
    var kinds := Kinds(Lines(t));
    var a := CommentStart(kinds);
    SpanFrom(kinds, 0, a, LEADING);
    var k :| 0 <= k < |CommentLines(t)| && CommentLines(t)[k] == body;
    assert Lead(t)[a + k] == Lines(t)[a + k];
    assert Lead(t)[a + k] in Lead(t);
  }

  /** The lines that lead a text in two parts, of which the first is made of such lines only. */
  lemma LeadOfAppend(t: string, front: seq<string>, rest: string)
    requires Lines(t) == front + Lines(rest) && forall line :: line in front ==> KindOf(line) in LEADING
    ensures Lead(t) == front + Lead(rest)
  {
    var n := |front|;
    var kinds := Kinds(Lines(t));
    KindsOfAppend(front, Lines(rest));
    assert forall k :: 0 <= k < n ==> front[k] in front;
    SpanFrom(kinds, 0, n, LEADING);
    SpanOfAppend(Kinds(front), Kinds(Lines(rest)), 0, LEADING);
    SliceOfAppend(front, Lines(rest), Span(Kinds(Lines(rest)), 0, LEADING));
  }

  lemma {:induction false} SpanOfAppend(a: seq<Kind>, b: seq<Kind>, i: nat, these: set<Kind>)
    requires i <= |b|
    ensures Span(a + b, |a| + i, these) == |a| + Span(b, i, these)
    decreases |b| - i
  {
    if i < |b| {
      SpanOfAppend(a, b, i + 1, these);
    }
  }

  lemma SliceOfAppend<T>(a: seq<T>, b: seq<T>, k: nat)
    requires k <= |b|
    ensures (a + b)[..|a| + k] == a + b[..k]
  {
  }

  // ----- No MIT marker -----

  predicate NoMit(lines: seq<string>) {
    forall line :: line in lines ==> !Contains(Body(line), MIT_MARKER)
  }

  lemma BodyWithin(line: string)
    ensures Body(line) <= line
  {
  }

  lemma NoMInBody(line: string)
    requires 'M' !in line
    ensures !Contains(Body(line), MIT_MARKER)
  {
    BodyWithin(line);
    MitNeedsM(Body(line));
  }

  lemma {:induction false} BlankHasNoM(s: string)
    requires LStrip(s) == ""
    ensures 'M' !in s
  {
    if s != "" {
      BlankHasNoM(s[1..]);
      assert s == [s[0]] + s[1..];
    }
  }

  /** If a line comment is judged to be no MIT license, no line that leads the text says so. */
  lemma LeadWithoutMit(t: string)
    requires !Contains(Join(CommentLines(t), '\n'), MIT_MARKER)
    ensures NoMit(Lead(t))
  {
    forall line | line in Lead(t) ensures !Contains(Body(line), MIT_MARKER) {
      var i :| 0 <= i < |Lead(t)| && Lead(t)[i] == line;
      LeadLineWithoutMit(t, i);
    }
  }

  lemma LeadLineWithoutMit(t: string, i: nat)
    requires i < |Lead(t)| && !Contains(Join(CommentLines(t), '\n'), MIT_MARKER)
    ensures !Contains(Body(Lead(t)[i]), MIT_MARKER)
  {
    var a := CommentStart(Kinds(Lines(t)));
    CommentIsLead(t, i);
    if i < a {
      BlankHasNoM(Lead(t)[i]);
      NoMInBody(Lead(t)[i]);
    } else if Contains(Body(Lead(t)[i]), MIT_MARKER) {
      LineInJoin(CommentLines(t), i - a, MIT_MARKER);
    }
  }

  lemma BomIsOther(line: string)
    requires line != "" && line[0] == BOM
    ensures KindOf(line) == Other
  {
    assert LStrip(line) == line;
    assert "//go:build"[0] == "// +build"[0] == "//"[0] == '/' && "#"[0] == '#';
  }

  lemma OtherLeadsNothing(t: string)
    requires Lines(t) != [] && KindOf(Lines(t)[0]) == Other
    ensures NoMit(Lead(t))
  {
    assert Lead(t) == [];
  }

  /** What follows an inserted header leads with no MIT marker. */
  lemma RestWithoutMit(text: string, suffix: string)
    requires suffix != ".go" && Detect(text, suffix) == NoLicense
    ensures NoMit(Lead(Rest(text, suffix)))
  {
    var rest := Rest(text, suffix);
    if rest == "" {
      assert Lead("") == [];
    } else if rest[0] == BOM {
      FirstOfLines(rest);
      BomIsOther(Lines(rest)[0]);
      OtherLeadsNothing(rest);
    } else if HasPrefix(rest, "/*") {
      StarterIsOther(rest);
      OtherLeadsNothing(rest);
    } else {
      RestIsCommentText(text, suffix);
      LeadWithoutMit(rest);
    }
  }

  lemma StarterIsOther(t: string)
    requires HasPrefix(t, "/*")
    ensures Lines(t) != [] && KindOf(Lines(t)[0]) == Other
  {
    assert t[0] == "/*"[0] == '/' && t[1] == "/*"[1] == '*';
    var line := Lines(t)[0];
    assert line == t[..LineEnd(t)] && LineEnd(t) >= 2;
    assert LStrip(line) == line && line[..2] == "/*";
    CommentOpensOther(line);
  }

  lemma RestIsCommentText(text: string, suffix: string)
    requires suffix != ".go" && Rest(text, suffix) != "" && Rest(text, suffix)[0] != BOM
    ensures CommentText(text, suffix) == Rest(text, suffix)
  {
    assert "#!"[0] == '#';
    if text != "" && text[0] == BOM {
      assert LStripNewlines(text) == text;
    }
    assert StripBoms(text) == text;
  }

  // ----- Reading a hash header -----

  /** The lines of a header and what follows it. */
  lemma LinesAtHeader(h: string, rest: string)
    ensures Lines(h + "\n" + if rest == "" then "" else "\n" + rest)
         == Lines(h + "\n") + if rest == "" then [] else ["\n"] + Lines(rest)
  {
    if rest == "" {
      assert h + "\n" + "" == h + "\n";
    } else {
      LinesOfAppend(h + "\n", "\n" + rest);
      LinesAfterNewline(rest);
    }
  }

  /** All that leads such a text: the header, a blank line, and what leads the rest. */
  lemma LeadAtHeader(h: string, rest: string)
    requires HashHeader(h)
    ensures Lead(h + "\n" + if rest == "" then "" else "\n" + rest)
         == Lines(h + "\n") + if rest == "" then [] else ["\n"] + Lead(rest)
  {
    var t := h + "\n" + if rest == "" then "" else "\n" + rest;
    LinesAtHeader(h, rest);
    if rest == "" {
      assert Lines(t) == Lines(h + "\n") + Lines("");
      LeadOfAppend(t, Lines(h + "\n"), "");
      assert Lead("") == [];
    } else {
      var front := Lines(h + "\n") + ["\n"];
      assert KindOf("\n") == Blank by { assert "\n"[1..] == ""; }
      ListAssoc(Lines(h + "\n"), ["\n"], Lines(rest));
      LeadOfAppend(t, front, rest);
      ListAssoc(Lines(h + "\n"), ["\n"], Lead(rest));
    }
  }

  lemma HeaderWithoutMit(h: string)
    requires HashHeader(h)
    ensures NoMit(Lines(h + "\n"))
  {
    forall line | line in Lines(h + "\n") ensures !Contains(Body(line), MIT_MARKER) {
      NoMInBody(line);
    }
  }

  lemma NoMitOfParts(a: seq<string>, b: seq<string>)
    requires NoMit(a) && NoMit(b)
    ensures NoMit(a + b)
  {
  }

  lemma HeaderLeadsWithoutMit(tail: string, h: string, rest: string)
    requires HashHeader(h) && NoMit(Lead(rest)) && tail == h + "\n" + if rest == "" then "" else "\n" + rest
    ensures NoMit(Lead(tail))
  {
    LeadAtHeader(h, rest);
    HeaderWithoutMit(h);
    if rest != "" {
      NoMInBody("\n");
      NoMitOfParts(["\n"], Lead(rest));
      NoMitOfParts(Lines(h + "\n"), ["\n"] + Lead(rest));
    } else {
      NoMitOfParts(Lines(h + "\n"), []);
    }
  }

  lemma NoMitInComment(t: string)
    requires NoMit(Lead(t))
    ensures !Contains(Join(CommentLines(t), '\n'), MIT_MARKER)
  {
    if Contains(Join(CommentLines(t), '\n'), MIT_MARKER) {
      assert '\n' !in MIT_MARKER;
      JoinInLine(CommentLines(t), MIT_MARKER);
      var body :| body in CommentLines(t) && Contains(body, MIT_MARKER);
      CommentWithinLead(t, body);
    }
  }

  /** A hash header is read as Apache where the comment is expected, if what leads the text after it
      has no MIT marker. */
  lemma HashIsApache(t: string, suffix: string, h: string, rest: string)
    requires HashHeader(h) && NoMit(Lead(rest))
    requires CommentText(t, suffix) == h + "\n" + if rest == "" then "" else "\n" + rest
    ensures Detect(t, suffix) == Apache
  {
    var tail := CommentText(t, suffix);
    var lines := CommentLines(tail);
    assert !HasPrefix(tail, "/*") by { assert tail[0] == h[0] == "# "[0] == '#' && "/*"[0] == '/'; }
    assert NoMit(Lead(tail)) by { HeaderLeadsWithoutMit(tail, h, rest); }
    assert Contains(Join(lines, '\n'), FOUNDATION) by { HeaderLineIsRead(tail, h, rest); }
    NoMitInComment(tail);
    FoundationIsApache(Join(lines, '\n'));
  }

  lemma HeaderLineIsRead(tail: string, h: string, rest: string)
    requires HashHeader(h) && tail == h + "\n" + if rest == "" then "" else "\n" + rest
    ensures Contains(Join(CommentLines(tail), '\n'), FOUNDATION)
  {
    LeadAtHeader(h, rest);
    LinesAtHeader(h, rest);
    var hl := Lines(h + "\n");
    assert hl[0] in hl;
    assert Lead(tail)[0] == hl[0] == Lines(tail)[0];
    assert CommentStart(Kinds(Lines(tail))) == 0;
    CommentIsLead(tail, 0);
    LineInJoin(CommentLines(tail), 0, FOUNDATION);
  }
}
