/** The rewrite of the heartbeat interval in the agent's configuration file.

    The file is edited line by line, without a YAML parser: the first "interval:" line of a
    heartbeat section gets the new value and everything else is written back as it was. */
module ConfigRewrite {
  import opened Text

  // ----- What the loop looks at on one line -----

  predicate OpensSection(line: string) {
    Contains(Lower(Trim(line)), "heartbeat")
  }

  /** A line that is not indented, not empty and not a comment ends the section. */
  predicate ClosesSection(line: string) {
    var trimmed := Trim(line);
    && |trimmed| > 0
    && !HasPrefix(trimmed, "#")
    && !HasPrefix(line, " ")
    && !HasPrefix(line, "\t")
  }

  predicate HoldsInterval(line: string) {
    HasPrefix(Trim(line), "interval:")
  }

  /** The leading spaces and tabs. */
  function Indent(line: string): (indent: string)
    ensures indent <= line
    ensures forall i :: 0 <= i < |indent| ==> indent[i] == ' ' || indent[i] == '\t'
    ensures |indent| < |line| ==> line[|indent|] != ' ' && line[|indent|] != '\t'
  {
    if line != "" && (line[0] == ' ' || line[0] == '\t') then
      assert line == [line[0]] + line[1..];
      [line[0]] + Indent(line[1..])
    else ""
  }

  // ----- Go's Duration.String for whole seconds -----

  function DurationString(seconds: nat): string
    requires seconds > 0
  {
    var s, m, h := seconds % 60, seconds / 60 % 60, seconds / 3600;
    if seconds < 60 then Decimal(s) + "s"
    else if seconds < 3600 then Decimal(m) + "m" + Decimal(s) + "s"
    else Decimal(h) + "h" + Decimal(m) + "m" + Decimal(s) + "s"
  }

  function IntervalLine(indent: string, seconds: nat): string
    requires seconds > 0
  {
    indent + "interval: " + DurationString(seconds)
  }

  /** The hours, minutes and seconds that stand in the text add up to the interval; minutes and seconds
      are below sixty, and larger units are written only if they are needed. */
  lemma DurationAddsUp(seconds: nat) returns (h: string, m: string, s: string)
    requires seconds > 0
    ensures IsNumeral(h) && IsNumeral(m) && IsNumeral(s)
    ensures 3600 * NumberOf(h) + 60 * NumberOf(m) + NumberOf(s) == seconds
    ensures NumberOf(m) < 60 && NumberOf(s) < 60
    ensures DurationString(seconds)
         == if NumberOf(h) > 0 then h + "h" + m + "m" + s + "s"
            else if NumberOf(m) > 0 then m + "m" + s + "s"
            else s + "s"
  {
    ClockAddsUp(seconds);
    h, m, s := DurationParts(seconds);
  }

  /** Minutes are shown behind hours, seconds always. */
  lemma DurationParts(seconds: nat) returns (h: string, m: string, s: string)
    requires seconds > 0
    ensures IsNumeral(h) && IsNumeral(m) && IsNumeral(s)
    ensures NumberOf(h) == seconds / 3600 && NumberOf(m) == seconds / 60 % 60 && NumberOf(s) == seconds % 60
    ensures DurationString(seconds)
         == if seconds >= 3600 then h + "h" + m + "m" + s + "s"
            else if seconds >= 60 then m + "m" + s + "s"
            else s + "s"
  {
    h, m, s := Decimal(seconds / 3600), Decimal(seconds / 60 % 60), Decimal(seconds % 60);
    DecimalDenotes(seconds / 3600);
    DecimalDenotes(seconds / 60 % 60);
    DecimalDenotes(seconds % 60);
  }

  lemma ClockAddsUp(seconds: nat)
    ensures 3600 * (seconds / 3600) + 60 * (seconds / 60 % 60) + seconds % 60 == seconds
    ensures seconds / 3600 > 0 <==> seconds >= 3600
    ensures seconds < 3600 ==> (seconds / 60 % 60 > 0 <==> seconds >= 60)
  {
    var q := seconds / 60;
    assert seconds == 60 * q + seconds % 60;
    assert q == 60 * (q / 60) + q % 60;
    assert q / 60 == seconds / 3600;
  }

  // ----- Specification -----

  /** All that the loop learns from one line. */
  datatype Look = Look(opens: bool, closes: bool, interval: bool)

  function LookAt(line: string): Look {
    Look(OpensSection(line), ClosesSection(line), HoldsInterval(line))
  }

  function Looks(lines: seq<string>): (looks: seq<Look>)
    ensures |looks| == |lines| && forall i :: 0 <= i < |lines| ==> looks[i] == LookAt(lines[i])
  {
    seq(|lines|, i requires 0 <= i < |lines| => LookAt(lines[i]))
  }

  /** Whether the line after these is inside a heartbeat section. */
  predicate InSection(looks: seq<Look>) {
    looks != [] &&
    var last := looks[|looks| - 1];
    last.opens || (InSection(looks[..|looks| - 1]) && !last.closes)
  }

  /** A line the loop may rewrite. */
  predicate IsTarget(looks: seq<Look>, i: nat)
    requires i < |looks|
  {
    !looks[i].opens && !looks[i].closes && looks[i].interval && InSection(looks[..i])
  }

  /** The first such line from i on; the number of lines when there is none. */
  function FirstTarget(looks: seq<Look>, i: nat): (t: nat)
    requires i <= |looks|
    ensures i <= t <= |looks|
    ensures t < |looks| ==> IsTarget(looks, t)
    ensures forall j :: i <= j < t ==> !IsTarget(looks, j)
    decreases |looks| - i
  {
    if i == |looks| || IsTarget(looks, i) then i else FirstTarget(looks, i + 1)
  }

  function Target(lines: seq<string>): (t: nat)
    ensures t <= |lines|
  {
    FirstTarget(Looks(lines), 0)
  }

  function Rewritten(lines: seq<string>, seconds: nat): seq<string>
    requires seconds > 0
  {
    var t := Target(lines);
    if t == |lines| then lines else lines[t := IntervalLine(Indent(lines[t]), seconds)]
  }

  function Persisted(content: string, seconds: nat): string
    requires seconds > 0
  {
    Join(Rewritten(Split(content, '\n'), seconds), '\n')
  }

  /** Line h opens a section that no line after it ends. */
  ghost predicate OpenSince(looks: seq<Look>, h: nat) {
    h < |looks| && looks[h].opens && forall k :: h < k < |looks| ==> !looks[k].closes || looks[k].opens
  }

  /** In the section means: below a line that mentions the heartbeat, with no line in between
      that closes the section. */
  lemma {:induction false} InSectionMeaning(looks: seq<Look>)
    ensures InSection(looks) <==> exists h: nat :: OpenSince(looks, h)
  {
    if looks != [] {
      var n := |looks| - 1;
      var init := looks[..n];
      InSectionMeaning(init);
      if InSection(looks) {
        var h: nat := n;
        if !looks[n].opens {
          h :| OpenSince(init, h);
        }
        assert OpenSince(looks, h);
      }
      if h: nat :| OpenSince(looks, h) && h < n {
        assert OpenSince(init, h);
      }
    }
  }

  // ----- The rewriting loop -----

  method PersistConfig(content: string, seconds: nat) returns (content': string)
    requires seconds > 0
    ensures content' == Persisted(content, seconds)
  {
    var lines := Split(content, '\n');
    ghost var before, looks := lines, Looks(lines);
    var inHeartbeatSection := false;
    for i := 0 to |lines|
      invariant lines == before
      invariant inHeartbeatSection == InSection(looks[..i])
      invariant Target(lines) == FirstTarget(looks, i)
    {
      assert looks[..i + 1][..i] == looks[..i] && looks[i] == LookAt(lines[i]);
      var line := lines[i];
      var trimmed := Trim(line);
      if Contains(Lower(trimmed), "heartbeat") {
        inHeartbeatSection := true;
        continue;
      }
      if && inHeartbeatSection && |trimmed| > 0 && !HasPrefix(trimmed, "#")
         && !HasPrefix(line, " ") && !HasPrefix(line, "\t") {
        inHeartbeatSection := false;
      }
      if inHeartbeatSection && HasPrefix(trimmed, "interval:") {
        lines := lines[i := Indent(line) + "interval: " + DurationString(seconds)];
        return Join(lines, '\n');
      }
    }
    return Join(lines, '\n');
  }

  // ----- Laws -----

  ghost predicate PlainText(s: string) {
    forall i :: 0 <= i < |s| ==> s[i] != 'b' && s[i] != 'B' && s[i] != '\n'
  }

  lemma DurationIsPlain(seconds: nat)
    requires seconds > 0
    ensures PlainText(DurationString(seconds))
  {
    var s, m, h := Decimal(seconds % 60), Decimal(seconds / 60 % 60), Decimal(seconds / 3600);
    assert PlainText(s + "s") && PlainText(m + "m") && PlainText(h + "h");
  }

  lemma PlainMentionsNoHeartbeat(s: string)
    requires PlainText(s)
    ensures !Contains(Lower(s), "heartbeat")
  {
    var low := Lower(s);
    forall i | 0 <= i <= |low| ensures !OccursAt(low, "heartbeat", i) {
      if i + 9 <= |low| {
        assert low[i + 5] == ToLower(s[i + 5]) != 'b';
        assert low[i..i + 9][5] == low[i + 5];
        assert "heartbeat"[5] == 'b';
      }
    }
  }

  /** The line the rewrite writes in place of an interval line of a section. */
  lemma WrittenTrims(line: string, seconds: nat)
    requires seconds > 0 && !ClosesSection(line) && HoldsInterval(line)
    ensures Trim(IntervalLine(Indent(line), seconds)) == "interval: " + DurationString(seconds)
    ensures Indent(IntervalLine(Indent(line), seconds)) == Indent(line) != ""
  {
    var indent := Indent(line);
    var rest := "interval: " + DurationString(seconds);
    assert IntervalLine(indent, seconds) == indent + rest;
    assert indent != "" by {
      assert "interval:"[0] == Trim(line)[0] == 'i';
    }
    IndentOfSpaced(indent, rest);
    TrimOfIndented(indent, rest);
    DurationEndsInS(seconds);
  }

  /** It is recognised exactly as the one it replaces, with the same indentation. */
  lemma WrittenLine(line: string, seconds: nat)
    requires seconds > 0 && !OpensSection(line) && !ClosesSection(line) && HoldsInterval(line)
    ensures var line' := IntervalLine(Indent(line), seconds);
            LookAt(line') == LookAt(line) && Indent(line') == Indent(line) && '\n' !in line'
  {
    WrittenTrims(line, seconds);
    WrittenLook(IntervalLine(Indent(line), seconds), seconds);
    WrittenHasNoBreak(Indent(line), seconds);
  }

  lemma WrittenHasNoBreak(indent: string, seconds: nat)
    requires seconds > 0 && forall i :: 0 <= i < |indent| ==> indent[i] == ' ' || indent[i] == '\t'
    ensures '\n' !in IntervalLine(indent, seconds)
  {
    DurationIsPlain(seconds);
  }

  lemma WrittenLook(line: string, seconds: nat)
    requires seconds > 0 && Indent(line) != "" && Trim(line) == "interval: " + DurationString(seconds)
    ensures !OpensSection(line) && !ClosesSection(line) && HoldsInterval(line)
  {
    WrittenText(seconds);
    IndentedStart(line);
  }

  lemma WrittenText(seconds: nat)
    requires seconds > 0
    ensures var text := "interval: " + DurationString(seconds);
            HasPrefix(text, "interval:") && !Contains(Lower(text), "heartbeat")
  {
    DurationIsPlain(seconds);
    var text := "interval: " + DurationString(seconds);
    assert text[..9] == "interval:";
    PlainMentionsNoHeartbeat(text);
  }

  lemma IndentedStart(line: string)
    requires Indent(line) != ""
    ensures HasPrefix(line, " ") || HasPrefix(line, "\t")
  {
    assert Indent(line)[0] == line[0];
  }

  lemma DurationEndsInS(seconds: nat)
    requires seconds > 0
    ensures DurationString(seconds) != "" && DurationString(seconds)[|DurationString(seconds)| - 1] == 's'
  {
  }

  lemma {:induction false} IndentOfSpaced(indent: string, rest: string)
    requires forall i :: 0 <= i < |indent| ==> indent[i] == ' ' || indent[i] == '\t'
    requires rest != "" && rest[0] != ' ' && rest[0] != '\t'
    ensures Indent(indent + rest) == indent
  {
    if indent == "" {
      assert indent + rest == rest;
    } else {
      IndentOfSpaced(indent[1..], rest);
      assert (indent + rest)[1..] == indent[1..] + rest;
    }
  }

  lemma {:induction false} TrimOfIndented(indent: string, rest: string)
    requires AllSpace(indent)
    requires rest != "" && !IsSpace(rest[0])
    ensures Trim(indent + rest) == TrimRight(rest)
  {
    if indent == "" {
      assert indent + rest == rest;
    } else {
      TrimOfIndented(indent[1..], rest);
      assert (indent + rest)[1..] == indent[1..] + rest;
    }
  }

  /** What a rewrite writes does not move the target, so the next rewrite finds the same line. */
  lemma LooksUnmoved(lines: seq<string>, seconds: nat)
    requires seconds > 0
    ensures Looks(Rewritten(lines, seconds)) == Looks(lines)
    ensures Target(Rewritten(lines, seconds)) == Target(lines)
  {
    var t := Target(lines);
    if t < |lines| {
      assert Looks(lines)[t] == LookAt(lines[t]);
      WrittenLine(lines[t], seconds);
    }
  }

  /** At most one line changes, none is added or removed, and the changed line is the target,
      keeps its indentation and is the line the next rewrite finds. */
  lemma RewriteTouchesOneLine(lines: seq<string>, seconds: nat)
    requires seconds > 0
    ensures var lines' := Rewritten(lines, seconds);
            && |lines'| == |lines|
            && Target(lines') == Target(lines)
            && forall i :: 0 <= i < |lines| && lines'[i] != lines[i] ==>
                 i == Target(lines) && Indent(lines'[i]) == Indent(lines[i])
  {
    LooksUnmoved(lines, seconds);
    var t := Target(lines);
    if t < |lines| {
      assert Looks(lines)[t] == LookAt(lines[t]);
      WrittenLine(lines[t], seconds);
    }
  }

  /** A second rewrite makes the first one as if it had never happened. */
  lemma RewriteAbsorbs(lines: seq<string>, first: nat, second: nat)
    requires first > 0 && second > 0
    ensures Rewritten(Rewritten(lines, first), second) == Rewritten(lines, second)
  {
    RewriteTouchesOneLine(lines, first);
    var t, once := Target(lines), Rewritten(lines, first);
    if t < |lines| {
      assert Looks(lines)[t] == LookAt(lines[t]);
      WrittenLine(lines[t], first);
      assert Indent(once[t]) == Indent(lines[t]);
    }
  }

  lemma RewriteKeepsLines(lines: seq<string>, seconds: nat)
    requires seconds > 0 && FreeOf(lines, '\n')
    ensures FreeOf(Rewritten(lines, seconds), '\n')
  {
    var t := Target(lines);
    if t < |lines| {
      assert Looks(lines)[t] == LookAt(lines[t]);
      WrittenLine(lines[t], seconds);
    }
  }

  /** The same for whole files, through the joining and splitting in between: persisting d1
      and then d2 leaves the text that persisting d2 alone leaves, with as many lines as before. */
  lemma PersistAbsorbs(content: string, first: nat, second: nat)
    requires first > 0 && second > 0
    ensures Persisted(Persisted(content, first), second) == Persisted(content, second)
    ensures |Split(Persisted(content, first), '\n')| == |Split(content, '\n')|
  {
    var lines := Split(content, '\n');
    JoinOfSplit(content, '\n');
    RewriteKeepsLines(lines, first);
    RewriteTouchesOneLine(lines, first);
    SplitOfJoin(Rewritten(lines, first), '\n');
    RewriteAbsorbs(lines, first, second);
  }
}
