/** Python's view of text: line boundaries, white space, and the few string methods that the
    license scripts use. */
module PyText {
  import opened Options
  import opened Text

  /** str.isspace. */
  predicate IsPySpace(c: char) {
    IsSpace(c) || 0x1C <= c as int <= 0x1F
  }

  /** The characters that str.splitlines breaks lines at; all are white space. */
  predicate IsBreak(c: char) {
    || 0x0A <= c as int <= 0x0D
    || 0x1C <= c as int <= 0x1E
    || c as int == 0x85 || c as int == 0x2028 || c as int == 0x2029
  }

  /** The length of the first line with its break. A carriage return and a line feed are one break. */
  function LineEnd(t: string): (n: nat)
    requires t != ""
    ensures 1 <= n <= |t|
  {
    if IsBreak(t[0]) then if t[0] == '\r' && |t| > 1 && t[1] == '\n' then 2 else 1
    else if |t| == 1 then 1
    else 1 + LineEnd(t[1..])
  }

  /** str.splitlines(keepends=True). */
  function Lines(t: string): seq<string>
    decreases |t|
  {
    if t == "" then [] else [t[..LineEnd(t)]] + Lines(t[LineEnd(t)..])
  }

  function Concat(lines: seq<string>): string {
    if lines == [] then "" else lines[0] + Concat(lines[1..])
  }

  /** A line without its break. */
  function Body(line: string): string {
    if line == "" || !IsBreak(line[|line| - 1]) then line
    else if |line| >= 2 && line[|line| - 2] == '\r' && line[|line| - 1] == '\n' then line[..|line| - 2]
    else line[..|line| - 1]
  }

  /** str.lstrip. */
  function LStrip(s: string): string {
    if s != "" && IsPySpace(s[0]) then LStrip(s[1..]) else s
  }

  /** text.lstrip("\n"). */
  function LStripNewlines(t: string): string {
    if t != "" && t[0] == '\n' then LStripNewlines(t[1..]) else t
  }

  /** The third part of text.partition("\n"). */
  function AfterNewline(t: string): string {
    if t == "" then "" else if t[0] == '\n' then t[1..] else AfterNewline(t[1..])
  }

  /** The first part of text.partition("\n"). */
  function BeforeNewline(t: string): (r: string)
    ensures r <= t && '\n' !in r
  {
    if t == "" || t[0] == '\n' then "" else [t[0]] + BeforeNewline(t[1..])
  }

  /** str.find. */
  function Find(t: string, part: string): Option<nat> {
    if part <= t then Some(0)
    else if t == "" then None
    else
      var rest := Find(t[1..], part);
      if rest.Some? then Some(rest.value + 1) else None
  }

  // ----- Lines -----

  lemma {:induction false} ConcatOfLines(t: string)
    ensures Concat(Lines(t)) == t
    decreases |t|
  {
    if t != "" {
      var n := LineEnd(t);
      ConcatOfLines(t[n..]);
      assert ([t[..n]] + Lines(t[n..]))[1..] == Lines(t[n..]);
      assert t == t[..n] + t[n..];
    }
  }

  lemma {:induction false} ConcatOfAppend(a: seq<string>, b: seq<string>)
    ensures Concat(a + b) == Concat(a) + Concat(b)
  {
    if a == [] {
      assert a + b == b;
    } else {
      ConcatOfAppend(a[1..], b);
      assert (a + b)[1..] == a[1..] + b && (a + b)[0] == a[0];
      assert a[0] + (Concat(a[1..]) + Concat(b)) == (a[0] + Concat(a[1..])) + Concat(b);
    }
  }

  /** A text that ends in a break, and is followed by something that does not continue it. */
  predicate EndsLine(a: string, b: string) {
    a == "" || (IsBreak(a[|a| - 1]) && !(a[|a| - 1] == '\r' && b != "" && b[0] == '\n'))
  }

  lemma {:induction false} LineEndOfAppend(a: string, b: string)
    requires a != "" && EndsLine(a, b)
    ensures LineEnd(a + b) == LineEnd(a)
  {
    if !IsBreak(a[0]) {
      LineEndOfAppend(a[1..], b);
      assert (a + b)[1..] == a[1..] + b;
    }
  }

  lemma LinesOfFirst(t: string, first: string, rest: string)
    requires t == first + rest && first != "" && LineEnd(t) == |first|
    ensures Lines(t) == [first] + Lines(rest)
  {
    assert t[..|first|] == first && t[|first|..] == rest;
  }

  lemma AppendToCons(first: string, a: seq<string>, b: seq<string>)
    ensures [first] + (a + b) == ([first] + a) + b
  {
  }

  /** Lines do not reach across such a point. */
  lemma {:induction false} LinesOfAppend(a: string, b: string)
    requires EndsLine(a, b)
    ensures Lines(a + b) == Lines(a) + Lines(b)
    decreases |a|
  {
    if a == "" {
      assert a + b == b;
    } else {
      var first, rest := a[..LineEnd(a)], a[LineEnd(a)..];
      assert Lines(a + b) == [first] + Lines(rest + b) by {
        LineEndOfAppend(a, b);
        LinesOfFirst(a + b, first, rest + b);
      }
      assert EndsLine(rest, b);
      LinesOfAppend(rest, b);
      AppendToCons(first, Lines(rest), Lines(b));
    }
  }

  /** One line: no break but at its end. */
  ghost predicate IsLine(line: string) {
    line != "" && LineEnd(line) == |line|
  }

  lemma LinesOfLine(line: string)
    requires IsLine(line)
    ensures Lines(line) == [line]
  {
    assert line[..|line|] == line && line[|line|..] == "";
  }

  lemma {:induction false} UnbrokenIsLine(body: string)
    requires forall i :: 0 <= i < |body| ==> !IsBreak(body[i])
    ensures IsLine(body + "\n")
    ensures body != "" ==> IsLine(body)
  {
    if body != "" {
      UnbrokenIsLine(body[1..]);
      assert (body + "\n")[1..] == body[1..] + "\n";
      if |body| > 1 { assert body[1..] != ""; }
    }
  }

  /** A list that could be the lines of a text: all but the last end in a break. */
  ghost predicate LineList(lines: seq<string>) {
    lines == [] ||
    (IsLine(lines[0]) && LineList(lines[1..]) && (|lines| > 1 ==> EndsLine(lines[0], lines[1])))
  }

  lemma {:induction false} FirstLine(t: string)
    requires t != ""
    ensures IsLine(t[..LineEnd(t)])
    ensures LineEnd(t) < |t| ==> EndsLine(t[..LineEnd(t)], t[LineEnd(t)..])
  {
    if !IsBreak(t[0]) && |t| > 1 {
      FirstLine(t[1..]);
      assert t[..LineEnd(t)][1..] == t[1..][..LineEnd(t[1..])];
      assert t[LineEnd(t)..] == t[1..][LineEnd(t[1..])..];
    }
  }

  lemma {:induction false} LinesAreList(t: string)
    ensures LineList(Lines(t))
    decreases |t|
  {
    if t != "" {
      var first, rest := t[..LineEnd(t)], t[LineEnd(t)..];
      FirstLine(t);
      LinesAreList(rest);
      assert ([first] + Lines(rest))[1..] == Lines(rest);
      if rest != "" {
        assert Lines(rest)[0][0] == rest[0];
      }
    }
  }

  lemma {:induction false} LinesOfList(lines: seq<string>)
    requires LineList(lines)
    ensures Lines(Concat(lines)) == lines
  {
    if |lines| == 1 {
      LinesOfLine(lines[0]);
      assert lines[0] + "" == lines[0];
    } else if |lines| > 1 {
      var rest := lines[1..];
      LinesOfList(rest);
      assert Concat(rest)[0] == rest[0][0] by {
        assert IsLine(rest[0]);
      }
      LinesOfAppend(lines[0], Concat(rest));
      LinesOfLine(lines[0]);
    }
  }

  lemma {:induction false} PartsOfLineList(lines: seq<string>, k: nat)
    requires LineList(lines) && k <= |lines|
    ensures LineList(lines[..k]) && LineList(lines[k..])
    ensures 0 < k < |lines| ==> EndsLine(lines[k - 1], lines[k])
  {
    if k == 0 {
      assert lines[..0] == [] && lines[0..] == lines;
    } else {
      PartsOfLineList(lines[1..], k - 1);
      assert lines[..k][1..] == lines[1..][..k - 1] && lines[k..] == lines[1..][k - 1..];
    }
  }

  lemma {:induction false} LastOfConcat(lines: seq<string>)
    requires LineList(lines) && lines != []
    ensures var last := lines[|lines| - 1];
            last != "" && Concat(lines) != "" && Concat(lines)[|Concat(lines)| - 1] == last[|last| - 1]
  {
    if |lines| == 1 {
      assert lines[0] + "" == lines[0];
    } else {
      LastOfConcat(lines[1..]);
    }
  }

  lemma SplitAt<T>(xs: seq<T>, k: nat)
    requires k <= |xs|
    ensures xs == xs[..k] + xs[k..]
  {
  }

  /** Cutting a text between two of its lines. */
  lemma LinesOfParts(t: string, k: nat)
    requires k <= |Lines(t)|
    ensures var front, rest := Concat(Lines(t)[..k]), Concat(Lines(t)[k..]);
            && t == front + rest
            && Lines(front) == Lines(t)[..k] && Lines(rest) == Lines(t)[k..]
  {
    var lines := Lines(t);
    LinesAreList(t);
    var front, rest := lines[..k], lines[k..];
    PartsOfLineList(lines, k);
    assert Lines(Concat(front)) == front by { LinesOfList(front); }
    assert Lines(Concat(rest)) == rest by { LinesOfList(rest); }
    assert t == Concat(front) + Concat(rest) by {
      ConcatOfLines(t);
      SplitAt(lines, k);
      ConcatOfAppend(front, rest);
    }
  }

  /** Between two of its lines a text has a break. */
  lemma FrontEndsLine(t: string, k: nat)
    requires k < |Lines(t)|
    ensures EndsLine(Concat(Lines(t)[..k]), Concat(Lines(t)[k..]))
  {
    var lines := Lines(t);
    LinesAreList(t);
    PartsOfLineList(lines, k);
    if k > 0 {
      LastOfConcat(lines[..k]);
      assert lines[..k][k - 1] == lines[k - 1];
      ConcatStart(lines[k..]);
    } else {
      assert lines[..0] == [];
    }
  }

  lemma ConcatStart(lines: seq<string>)
    requires LineList(lines) && lines != []
    ensures Concat(lines) != "" && lines[0] != "" && Concat(lines)[0] == lines[0][0]
  {
  }

  /** A text as what precedes its last line, and that line. */
  lemma LastLine(t: string)
    requires Lines(t) != []
    ensures var lines := Lines(t);
            var front, last := Concat(lines[..|lines| - 1]), lines[|lines| - 1];
            && t == front + last && Lines(front) == lines[..|lines| - 1]
            && IsLine(last) && EndsLine(front, last)
  {
    var lines := Lines(t);
    var n := |lines| - 1;
    LinesAreList(t);
    PartsOfLineList(lines, n);
    LinesOfParts(t, n);
    FrontEndsLine(t, n);
    assert lines[n..] == [lines[n]];
    ConcatOfOne(lines[n]);
    assert IsLine(lines[n..][0]);
  }

  lemma ConcatOfOne(line: string)
    ensures Concat([line]) == line
  {
    assert [line][1..] == [] && line + "" == line;
  }

  // ----- White space in front -----

  predicate AllPySpace(s: string) {
    forall i :: 0 <= i < |s| ==> IsPySpace(s[i])
  }

  lemma {:induction false} LStripOfPadded(indent: string, s: string)
    requires AllPySpace(indent) && (s == "" || !IsPySpace(s[0]))
    ensures LStrip(indent + s) == s
  {
    if indent == "" {
      assert indent + s == s;
    } else {
      LStripOfPadded(indent[1..], s);
      assert (indent + s)[1..] == indent[1..] + s;
    }
  }
}
