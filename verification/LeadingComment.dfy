/** The comment at the head of a source file, where both license scripts look for a license.

    The two scripts carry their own copies of this parser, which do the same. */
module LeadingComment {
  import opened Text
  import opened PyText

  const BOM: char := '\U{FEFF}'
  const HEADER_SCAN_BYTES := 4096

  // ----- Kinds of lines -----

  datatype Kind = Blank | Build | Comment | Other

  /** The kinds that a leading comment can be made of. */
  const LEADING := {Blank, Build, Comment}

  predicate IsBuild(line: string) {
    var stripped := LStrip(line);
    HasPrefix(stripped, "//go:build") || HasPrefix(stripped, "// +build")
  }

  predicate IsComment(line: string) {
    var stripped := LStrip(line);
    HasPrefix(stripped, "#") || HasPrefix(stripped, "//")
  }

  function KindOf(line: string): Kind {
    if LStrip(line) == "" then Blank
    else if IsBuild(line) then Build
    else if IsComment(line) then Comment
    else Other
  }

  function Kinds(lines: seq<string>): (kinds: seq<Kind>)
    ensures |kinds| == |lines| && forall i :: 0 <= i < |lines| ==> kinds[i] == KindOf(lines[i])
  {
    seq(|lines|, i requires 0 <= i < |lines| => KindOf(lines[i]))
  }

  /** How many lines from i on are of the given kinds. */
  function Span(kinds: seq<Kind>, i: nat, these: set<Kind>): (j: nat)
    requires i <= |kinds|
    ensures i <= j <= |kinds| && (j < |kinds| ==> kinds[j] !in these)
    ensures forall k :: i <= k < j ==> kinds[k] in these
    decreases |kinds| - i
  {
    if i < |kinds| && kinds[i] in these then Span(kinds, i + 1, these) else i
  }

  /** The lines of the build-constraint prefix: blank lines, constraints, and one blank line
      after them if there is one; none at all without a constraint. */
  function PrefixEnd(kinds: seq<Kind>): (n: nat)
    ensures n <= |kinds|
  {
    var a := Span(kinds, 0, {Blank});
    var b := Span(kinds, a, {Build});
    if b == a then 0 else if b < |kinds| && kinds[b] == Blank then b + 1 else b
  }

  /** The lines of the leading comment: after the blank lines, the comments and the blank lines
      between and after them. */
  function CommentStart(kinds: seq<Kind>): (n: nat)
    ensures n <= |kinds|
  {
    Span(kinds, 0, {Blank})
  }

  function CommentEnd(kinds: seq<Kind>): (n: nat)
    ensures CommentStart(kinds) <= n <= |kinds|
  {
    Span(kinds, CommentStart(kinds), LEADING)
  }

  // ----- The parts of a text -----

  function BuildPrefix(text: string): string {
    var lines := Lines(text);
    Concat(lines[..PrefixEnd(Kinds(lines))])
  }

  function AfterBuildPrefix(text: string): string {
    var lines := Lines(text);
    Concat(lines[PrefixEnd(Kinds(lines))..])
  }

  function Bodies(lines: seq<string>): (bodies: seq<string>)
    ensures |bodies| == |lines| && forall i :: 0 <= i < |lines| ==> bodies[i] == Body(lines[i])
  {
    seq(|lines|, i requires 0 <= i < |lines| => Body(lines[i]))
  }

  function CommentLines(text: string): seq<string> {
    var lines := Lines(text);
    var kinds := Kinds(lines);
    Bodies(lines)[CommentStart(kinds)..CommentEnd(kinds)]
  }

  function StripBoms(t: string): string {
    if t != "" && t[0] == BOM then StripBoms(t[1..]) else t
  }

  /** The text where the comment is expected: after a byte order mark, a shebang line and, in a
      Go file, the build-constraint prefix. */
  function CommentText(text: string, suffix: string): string {
    var t0 := StripBoms(text);
    var t1 := if HasPrefix(t0, "#!") then AfterNewline(t0) else t0;
    var t2 := LStripNewlines(t1);
    if suffix == ".go" then LStripNewlines(AfterBuildPrefix(t2)) else t2
  }

  function BlockOf(t: string): string {
    var end := Find(t, "*/");
    if end.Some? && end.value + 2 <= |t| then t[..end.value + 2]
    else if |t| <= HEADER_SCAN_BYTES then t else t[..HEADER_SCAN_BYTES]
  }

  function CommentOf(text: string, suffix: string): string {
    var t := CommentText(text, suffix);
    if HasPrefix(t, "/*") then BlockOf(t) else Join(CommentLines(t), '\n')
  }

  // ----- The loops -----

  /** The index reached by the loop over the lines, of which it looks at the kinds. */
  method ScanPrefix(kinds: seq<Kind>) returns (idx: nat)
    ensures idx == PrefixEnd(kinds)
  {
    idx := 0;
    var sawBuildConstraint := false;
    ghost var a := Span(kinds, 0, {Blank});
    ghost var b := Span(kinds, a, {Build});
    while idx < |kinds|
      invariant 0 <= idx <= b
      invariant sawBuildConstraint <==> idx > a
    {
      if kinds[idx] == Blank {
        idx := idx + 1;
        if sawBuildConstraint {
          break;
        }
        continue;
      }
      if kinds[idx] == Build {
        sawBuildConstraint := true;
        idx := idx + 1;
        continue;
      }
      break;
    }
    if !sawBuildConstraint {
      idx := 0;
    }
  }

  method SplitGoBuildConstraintPrefix(text: string) returns (prefix: string, rest: string)
    ensures prefix == BuildPrefix(text) && rest == AfterBuildPrefix(text)
  {
    var lines := Lines(text);
    var idx := ScanPrefix(Kinds(lines));
    return Concat(lines[..idx]), Concat(lines[idx..]);
  }

  /** The loop that collects the comment lines, given the lines without their breaks. */
  method ScanComment(lines: seq<string>, kinds: seq<Kind>) returns (commentLines: seq<string>)
    requires |lines| == |kinds|
    ensures commentLines == lines[CommentStart(kinds)..CommentEnd(kinds)]
  {
    commentLines := [];
    ghost var a := CommentStart(kinds);
    ghost var b := CommentEnd(kinds);
    for i := 0 to |lines|
      invariant i <= b
      invariant commentLines == if i <= a then [] else lines[a..i]
    {
      if kinds[i] == Blank {
        if |commentLines| > 0 {
          commentLines := commentLines + [lines[i]];
        }
        continue;
      }
      if kinds[i] == Build || kinds[i] == Comment {
        commentLines := commentLines + [lines[i]];
        continue;
      }
      break;
    }
  }

  method FindCommentText(text: string, suffix: string) returns (t: string)
    ensures t == CommentText(text, suffix)
  {
    t := StripBoms(text);
    if HasPrefix(t, "#!") {
      t := AfterNewline(t);
    }
    t := LStripNewlines(t);
    if suffix == ".go" {
      var _, rest := SplitGoBuildConstraintPrefix(t);
      t := LStripNewlines(rest);
    }
  }

  method ExtractLeadingComment(text: string, suffix: string) returns (comment: string)
    ensures comment == CommentOf(text, suffix)
  {
    var t := FindCommentText(text, suffix);
    if HasPrefix(t, "/*") {
      return BlockOf(t);
    }
    var lines := Lines(t);
    KindsOfBodies(lines);
    var commentLines := ScanComment(Bodies(lines), Kinds(Bodies(lines)));
    return Join(commentLines, '\n');
  }

  // ----- Lines and their breaks -----

  lemma {:induction false} LStripOfSnoc(s: string, c: char)
    requires IsPySpace(c)
    ensures LStrip(s + [c]) == if LStrip(s) == "" then "" else LStrip(s) + [c]
  {
    if s == "" {
      assert [c][1..] == "" && s + [c] == [c];
    } else if IsPySpace(s[0]) {
      LStripOfSnoc(s[1..], c);
      assert (s + [c])[1..] == s[1..] + [c];
    }
  }

  lemma PrefixOfSnoc(s: string, c: char, prefix: string)
    requires prefix != "" && prefix[|prefix| - 1] != c
    ensures HasPrefix(s + [c], prefix) == HasPrefix(s, prefix)
  {
  }

  lemma KindOfSnoc(s: string, c: char)
    requires IsBreak(c)
    ensures KindOf(s + [c]) == KindOf(s)
  {
    LStripOfSnoc(s, c);
    var r, r' := LStrip(s), LStrip(s + [c]);
    if r != "" {
      assert HasPrefix(r', "//go:build") == HasPrefix(r, "//go:build") by { PrefixOfSnoc(r, c, "//go:build"); }
      assert HasPrefix(r', "// +build") == HasPrefix(r, "// +build") by { PrefixOfSnoc(r, c, "// +build"); }
      assert HasPrefix(r', "#") == HasPrefix(r, "#") by { PrefixOfSnoc(r, c, "#"); }
      assert HasPrefix(r', "//") == HasPrefix(r, "//") by { PrefixOfSnoc(r, c, "//"); }
    }
  }

  /** Without its break a line is of the same kind. */
  lemma KindOfBody(line: string)
    ensures KindOf(Body(line)) == KindOf(line)
  {
    if line != "" && IsBreak(line[|line| - 1]) {
      var front, c := line[..|line| - 1], line[|line| - 1];
      assert line == front + [c];
      KindOfSnoc(front, c);
      if front != "" && front[|front| - 1] == '\r' {
        var inner := front[..|front| - 1];
        assert front == inner + ['\r'] && inner == line[..|line| - 2];
        KindOfSnoc(inner, '\r');
      }
    }
  }

  lemma KindsOfBodies(lines: seq<string>)
    ensures Kinds(Bodies(lines)) == Kinds(lines)
  {
    forall i | 0 <= i < |lines| ensures Kinds(Bodies(lines))[i] == Kinds(lines)[i] {
      KindOfBody(lines[i]);
    }
  }
}
