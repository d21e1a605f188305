/** The time-window filter of the agent's log command.

    A log entry is a line with a timestamp and the lines without one that follow it.
    The filter groups lines into entries through a pointer into a growing slice, then
    drops the entries outside the window. Its specification never mentions entries: a
    line is kept when the nearest timestamp at or before it lies in the window. */
module LogWindow {
  import opened Options
  import opened Text

  type Instant = int
  type Recogniser = string -> Option<Instant>

  /** Both bounds are inclusive; a missing bound does not restrict. */
  datatype Window = Window(start: Option<Instant>, end: Option<Instant>) {
    predicate Admits(t: Instant) {
      && (start.Some? ==> start.value <= t)
      && (end.Some? ==> t <= end.value)
    }
  }

  const UNBOUNDED := Window(None, None)

  function Intersect(a: Window, b: Window): (w: Window)
    ensures forall t :: w.Admits(t) <==> a.Admits(t) && b.Admits(t)
  {
    Window(
      if a.start.None? then b.start else if b.start.None? then a.start
      else if a.start.value < b.start.value then b.start else a.start,
      if a.end.None? then b.end else if b.end.None? then a.end
      else if a.end.value < b.end.value then a.end else b.end)
  }

  // ----- The per-line specification -----

  /** The last timestamp among the lines. */
  function Governing(ts: Recogniser, lines: seq<string>): Option<Instant> {
    if lines == [] then None
    else
      var own := ts(lines[|lines| - 1]);
      if own.Some? then own else Governing(ts, lines[..|lines| - 1])
  }

  predicate Passes(g: Option<Instant>, w: Window) {
    g.None? || w.Admits(g.value)
  }

  /** A line is kept when its governing timestamp is in the window, or when it has none. */
  predicate Keeps(ts: Recogniser, lines: seq<string>, i: nat, w: Window)
    requires i < |lines|
  {
    Passes(Governing(ts, lines[..i + 1]), w)
  }

  function KeptLines(ts: Recogniser, lines: seq<string>, w: Window): seq<string> {
    if lines == [] then []
    else
      var n := |lines| - 1;
      var init := KeptLines(ts, lines[..n], w);
      if Keeps(ts, lines, n, w) then init + [lines[n]] else init
  }

  function Filtered(ts: Recogniser, content: string, w: Window): string {
    Trim(Join(KeptLines(ts, Split(content, '\n'), w), '\n'))
  }

  /** The governing timestamp is the one of the nearest timestamped line at or before. */
  lemma {:induction false} GoverningIsNearest(ts: Recogniser, lines: seq<string>)
    ensures Governing(ts, lines).None? <==> forall j :: 0 <= j < |lines| ==> ts(lines[j]).None?
    ensures Governing(ts, lines).Some? ==>
              exists j :: 0 <= j < |lines| && ts(lines[j]) == Governing(ts, lines)
                          && forall k :: j < k < |lines| ==> ts(lines[k]).None?
  {
    if lines != [] {
      var n := |lines| - 1;
      var init := lines[..n];
      GoverningIsNearest(ts, init);
      if ts(lines[n]).None? {
        assert forall j :: 0 <= j < n ==> init[j] == lines[j];
        if Governing(ts, init).Some? {
          var j :| 0 <= j < n && ts(init[j]) == Governing(ts, init)
                   && forall k :: j < k < n ==> ts(init[k]).None?;
          assert ts(lines[j]) == Governing(ts, lines);
        }
      }
    }
  }

  /** Line j has the nearest timestamp at or before line i. */
  ghost predicate Governs(ts: Recogniser, lines: seq<string>, j: nat, i: nat)
    requires j <= i < |lines|
  {
    ts(lines[j]).Some? && forall k :: j < k <= i ==> ts(lines[k]).None?
  }

  /** No line up to this one has a timestamp, or the nearest one is not before the start and not
      behind the end. */
  ghost predicate InWindow(ts: Recogniser, lines: seq<string>, i: nat, w: Window)
    requires i < |lines|
  {
    || (forall j :: 0 <= j <= i ==> ts(lines[j]).None?)
    || (exists j: nat :: j <= i && Governs(ts, lines, j, i)
                         && (w.start.Some? ==> w.start.value <= ts(lines[j]).value)
                         && (w.end.Some? ==> ts(lines[j]).value <= w.end.value))
  }

  lemma KeepsIff(ts: Recogniser, lines: seq<string>, i: nat, w: Window)
    requires i < |lines|
    ensures Keeps(ts, lines, i, w) <==> InWindow(ts, lines, i, w)
  {
    var front := lines[..i + 1];
    GoverningIsNearest(ts, front);
    assert forall j :: 0 <= j <= i ==> front[j] == lines[j];
    if Governing(ts, front).Some? {
      var j: nat :| j < |front| && ts(front[j]) == Governing(ts, front)
                    && forall k :: j < k < |front| ==> ts(front[k]).None?;
      assert ts(lines[j]).Some? && Governs(ts, lines, j, i);
      forall l: nat | l <= i && Governs(ts, lines, l, i) ensures l == j {
        assert ts(lines[l]).Some? && ts(lines[j]).Some?;
      }
    }
  }

  /** The numbers of the lines that are kept. */
  function KeptNumbers(ts: Recogniser, lines: seq<string>, w: Window): (at: seq<nat>)
    ensures forall k :: 0 <= k < |at| ==> at[k] < |lines|
    ensures forall k, l :: 0 <= k < l < |at| ==> at[k] < at[l]
  {
    if lines == [] then []
    else
      var n := |lines| - 1;
      var early := KeptNumbers(ts, lines[..n], w);
      if Keeps(ts, lines, n, w) then early + [n] else early
  }

  /** They increase; these are the lines; */
  lemma {:induction false} KeptInOrder(ts: Recogniser, lines: seq<string>, w: Window)
    ensures var kept, at := KeptLines(ts, lines, w), KeptNumbers(ts, lines, w);
            |kept| == |at| && forall k :: 0 <= k < |at| ==> kept[k] == lines[at[k]]
  {
    if lines != [] {
      KeptInOrder(ts, lines[..|lines| - 1], w);
    }
  }

  lemma {:induction false} KeptNumberIff(ts: Recogniser, lines: seq<string>, w: Window, i: nat)
    requires i < |lines|
    ensures i in KeptNumbers(ts, lines, w) <==> Keeps(ts, lines, i, w)
  {
    var n := |lines| - 1;
    var early := KeptNumbers(ts, lines[..n], w);
    if i < n {
      KeptNumberIff(ts, lines[..n], w, i);
      assert lines[..n][..i + 1] == lines[..i + 1];
      assert i in early + [n] <==> i in early;
    } else {
      assert n in early + [n];
    }
  }

  /** and a line is among them exactly if it is in the window. */
  lemma KeptIff(ts: Recogniser, lines: seq<string>, w: Window, i: nat)
    requires i < |lines|
    ensures i in KeptNumbers(ts, lines, w) <==> InWindow(ts, lines, i, w)
  {
    KeptNumberIff(ts, lines, w, i);
    KeepsIff(ts, lines, i, w);
  }

  // ----- The grouping algorithm -----

  datatype Entry = Entry(time: Option<Instant>, lines: seq<string>)

  /** A Go slice of entries: a backing array and the part of it in use. */
  datatype Slice = Slice(buf: array<Entry>, len: nat)

  /** A Go pointer to one element of a backing array. */
  datatype Pointer = Nil | To(buf: array<Entry>, index: nat)

  /** Appends in place while there is room, and otherwise moves to a larger array,
      leaving pointers into the old one behind. */
  method Append(s: Slice, e: Entry) returns (s': Slice)
    requires s.len <= s.buf.Length
    modifies s.buf
    ensures s'.len == s.len + 1 <= s'.buf.Length
    ensures s'.buf[..s'.len] == old(s.buf[..s.len]) + [e]
    ensures s'.buf == s.buf || fresh(s'.buf)
  {
    if s.len < s.buf.Length {
      s.buf[s.len] := e;
      s' := Slice(s.buf, s.len + 1);
    } else {
      var grown := new Entry[2 * s.buf.Length + 1](_ => e);
      forall i | 0 <= i < s.len {
        grown[i] := s.buf[i];
      }
      s' := Slice(grown, s.len + 1);
    }
  }

  function WithLine(groups: seq<Entry>, line: string): seq<Entry>
    requires groups != []
  {
    var last := groups[|groups| - 1];
    groups[..|groups| - 1] + [last.(lines := last.lines + [line])]
  }

  function AddLine(groups: seq<Entry>, own: Option<Instant>, line: string): seq<Entry> {
    if own.Some? || groups == [] then groups + [Entry(own, [line])] else WithLine(groups, line)
  }

  function Groups(ts: Recogniser, lines: seq<string>): seq<Entry> {
    if lines == [] then []
    else
      var line := lines[|lines| - 1];
      AddLine(Groups(ts, lines[..|lines| - 1]), ts(line), line)
  }

  function LinesOfKept(entries: seq<Entry>, w: Window): seq<string> {
    if entries == [] then []
    else
      var n := |entries| - 1;
      var init := LinesOfKept(entries[..n], w);
      if Passes(entries[n].time, w) then init + entries[n].lines else init
  }

  /** Dropping whole entries keeps exactly the lines the specification keeps. */
  lemma {:induction false} GroupingRefines(ts: Recogniser, lines: seq<string>, w: Window)
    ensures LinesOfKept(Groups(ts, lines), w) == KeptLines(ts, lines, w)
    ensures var g := Groups(ts, lines);
            (g == [] <==> lines == []) && (g != [] ==> g[|g| - 1].time == Governing(ts, lines))
  {
    if lines != [] {
      var n := |lines| - 1;
      GroupingRefines(ts, lines[..n], w);
      assert lines[..n + 1] == lines;
      var init, own := Groups(ts, lines[..n]), ts(lines[n]);
      var g := Groups(ts, lines);
      if own.Some? || init == [] {
        assert g[..|g| - 1] == init && g[|g| - 1] == Entry(own, [lines[n]]);
        if own.None? { assert lines[..n] == []; }
        assert g[|g| - 1].time == Governing(ts, lines);
      } else {
        var front, last := init[..|init| - 1], init[|init| - 1];
        assert g[..|g| - 1] == front;
        if Passes(last.time, w) {
          assert LinesOfKept(front, w) + (last.lines + [lines[n]]) == LinesOfKept(init, w) + [lines[n]];
        }
      }
    }
  }

  ghost predicate AllBlank(lines: seq<string>) {
    forall i :: 0 <= i < |lines| ==> AllSpace(lines[i])
  }

  lemma {:induction false} KeptOfBlank(ts: Recogniser, lines: seq<string>, w: Window)
    requires AllBlank(lines)
    ensures AllBlank(KeptLines(ts, lines, w))
  {
    if lines != [] {
      KeptOfBlank(ts, lines[..|lines| - 1], w);
    }
  }

  lemma {:induction false} JoinOfBlank(lines: seq<string>)
    requires AllBlank(lines)
    ensures AllSpace(Join(lines, '\n'))
  {
    if |lines| > 1 {
      JoinOfBlank(lines[1..]);
      assert AllSpace(lines[0]);
    }
  }

  lemma {:induction false} SplitOfSpace(s: string)
    requires AllSpace(s)
    ensures AllBlank(Split(s, '\n'))
  {
    if s != "" {
      SplitOfSpace(s[1..]);
      var rest := Split(s[1..], '\n');
      assert AllSpace(rest[0]);
    }
  }

  lemma FilteredOfSpace(ts: Recogniser, content: string, w: Window)
    requires AllSpace(content)
    ensures Filtered(ts, content, w) == ""
  {
    var lines := Split(content, '\n');
    SplitOfSpace(content);
    KeptOfBlank(ts, lines, w);
    JoinOfBlank(KeptLines(ts, lines, w));
    TrimEmptyIffAllSpace(Join(KeptLines(ts, lines, w), '\n'));
  }

  /** The grouping loop. The pointer always denotes the last element of the slice, also
      across an append that moves the slice to a larger array. */
  method GroupLines(ts: Recogniser, lines: seq<string>) returns (entries: Slice)
    ensures entries.len <= entries.buf.Length
    ensures entries.buf[..entries.len] == Groups(ts, lines)
  {
    var buf := new Entry[256](_ => Entry(None, []));
    entries := Slice(buf, 0);
    var current := Nil;
    for i := 0 to |lines|
      invariant fresh(entries.buf) && entries.len <= entries.buf.Length
      invariant entries.buf[..entries.len] == Groups(ts, lines[..i])
      invariant current == if entries.len == 0 then Nil else To(entries.buf, entries.len - 1)
    {
      GroupsOfNext(ts, lines, i);
      var own := ts(lines[i]);
      if own.Some? {
        entries := Append(entries, Entry(own, [lines[i]]));
        current := To(entries.buf, entries.len - 1);
        continue;
      }
      entries, current := AppendLine(entries, current, lines[i]);
    }
    assert lines[..|lines|] == lines;
  }

  lemma GroupsOfNext(ts: Recogniser, lines: seq<string>, i: nat)
    requires i < |lines|
    ensures Groups(ts, lines[..i + 1]) == AddLine(Groups(ts, lines[..i]), ts(lines[i]), lines[i])
  {
    assert lines[..i + 1][..i] == lines[..i];
  }

  /** A line without a timestamp: written through the pointer, or a first entry of its own. */
  method AppendLine(entries: Slice, current: Pointer, line: string) returns (entries': Slice, current': Pointer)
    requires entries.len <= entries.buf.Length
    requires current == if entries.len == 0 then Nil else To(entries.buf, entries.len - 1)
    modifies entries.buf
    ensures entries'.buf == entries.buf || fresh(entries'.buf)
    ensures 0 < entries'.len <= entries'.buf.Length
    ensures current' == To(entries'.buf, entries'.len - 1)
    ensures entries'.buf[..entries'.len] == AddLine(old(entries.buf[..entries.len]), None, line)
  {
    match current
    case Nil =>
      entries' := Append(entries, Entry(None, [line]));
      current' := To(entries'.buf, entries'.len - 1);
    case To(target, index) =>
      target[index] := target[index].(lines := target[index].lines + [line]);
      return entries, current;
  }

  method FilterContent(ts: Recogniser, content: string, w: Window) returns (result: string)
    ensures result == Filtered(ts, content, w)
  {
    if Trim(content) == "" {
      TrimEmptyIffAllSpace(content);
      FilteredOfSpace(ts, content, w);
      return "";
    }
    var lines := Split(content, '\n');
    var entries := GroupLines(ts, lines);
    GroupingRefines(ts, lines, w);
    var filtered := SelectLines(entries, w);
    return Trim(Join(filtered, '\n'));
  }

  method SelectLines(entries: Slice, w: Window) returns (filtered: seq<string>)
    requires entries.len <= entries.buf.Length
    ensures filtered == LinesOfKept(entries.buf[..entries.len], w)
  {
    filtered := [];
    ghost var all := entries.buf[..entries.len];
    for i := 0 to entries.len
      invariant filtered == LinesOfKept(all[..i], w)
    {
      assert all[..i + 1][..i] == all[..i];
      var entry := entries.buf[i];
      if entry.time.Some? {
        if w.start.Some? && entry.time.value < w.start.value {
          continue;
        }
        if w.end.Some? && entry.time.value > w.end.value {
          continue;
        }
      }
      filtered := filtered + entry.lines;
    }
    assert all[..|all|] == all;
  }

  // ----- Laws -----

  /** White space around a line does not change its timestamp, and an empty line has none. */
  ghost predicate IgnoresSpace(ts: Recogniser) {
    && ts("").None?
    && forall c: char, line: string {:trigger ts([c] + line)} {:trigger ts(line + [c])} ::
         IsSpace(c) ==> ts([c] + line) == ts(line) && ts(line + [c]) == ts(line)
  }

  /** What passes a filter is governed, among the kept lines, by the timestamp that governed
      it before: the entry it belongs to is kept as a whole. */
  lemma {:induction false} GoverningOfKept(ts: Recogniser, lines: seq<string>, a: Window)
    requires lines != [] ==> Keeps(ts, lines, |lines| - 1, a)
    ensures Governing(ts, KeptLines(ts, lines, a)) == Governing(ts, lines)
  {
    if lines != [] {
      var n := |lines| - 1;
      var init := lines[..n];
      assert lines[..n + 1] == lines;
      var kept := KeptLines(ts, init, a);
      assert (kept + [lines[n]])[..|kept|] == kept;
      if ts(lines[n]).None? {
        if n > 0 { assert init[..n] == init; }
        GoverningOfKept(ts, init, a);
      }
    }
  }

  /** One more line at the end: the earlier decisions stand. */
  lemma KeptOfSnoc(ts: Recogniser, lines: seq<string>, line: string, w: Window)
    ensures var g := if ts(line).Some? then ts(line) else Governing(ts, lines);
            && Governing(ts, lines + [line]) == g
            && var kept := KeptLines(ts, lines, w);
               KeptLines(ts, lines + [line], w) == if Passes(g, w) then kept + [line] else kept
  {
    var more := lines + [line];
    assert more[..|lines|] == lines && more[..|lines| + 1] == more;
  }

  /** Filtering kept lines again intersects the windows. */
  lemma {:induction false} KeptOfKept(ts: Recogniser, lines: seq<string>, a: Window, b: Window)
    ensures KeptLines(ts, KeptLines(ts, lines, a), b) == KeptLines(ts, lines, Intersect(a, b))
  {
    if lines != [] {
      var n := |lines| - 1;
      var init := lines[..n];
      assert lines == init + [lines[n]];
      KeptOfKept(ts, init, a, b);
      KeptOfSnoc(ts, init, lines[n], a);
      KeptOfSnoc(ts, init, lines[n], Intersect(a, b));
      if Passes(Governing(ts, lines), a) {
        assert lines[..n + 1] == lines;
        GoverningOfKept(ts, lines, a);
        KeptOfSnoc(ts, KeptLines(ts, init, a), lines[n], b);
      }
    }
  }

  /** The lines with one more character in front of the first. */
  function Indented(c: char, lines: seq<string>): seq<string>
    requires lines != []
  {
    [[c] + lines[0]] + lines[1..]
  }

  ghost predicate MayIndent(c: char, lines: seq<string>, lines': seq<string>) {
    lines' == lines || (lines != [] && lines' == Indented(c, lines))
  }

  lemma IndentedOfSnoc(c: char, lines: seq<string>, line: string)
    requires lines != []
    ensures Indented(c, lines + [line]) == Indented(c, lines) + [line]
  {
  }

  /** A first line that differs only in leading white space changes nothing else. */
  lemma {:induction false} KeptOfFirst(ts: Recogniser, c: char, lines: seq<string>, w: Window)
    requires lines != [] && IsSpace(c) && IgnoresSpace(ts)
    ensures Governing(ts, Indented(c, lines)) == Governing(ts, lines)
    ensures MayIndent(c, KeptLines(ts, lines, w), KeptLines(ts, Indented(c, lines), w))
  {
    var init, line := lines[..|lines| - 1], lines[|lines| - 1];
    assert lines == init + [line];
    KeptOfSnoc(ts, init, line, w);
    if init == [] {
      assert ts([c] + line) == ts(line);
      assert Indented(c, lines) == init + [[c] + line];
      KeptOfSnoc(ts, init, [c] + line, w);
    } else {
      KeptOfFirst(ts, c, init, w);
      IndentedOfSnoc(c, init, line);
      KeptOfSnoc(ts, Indented(c, init), line, w);
      var kept := KeptLines(ts, init, w);
      if kept != [] { IndentedOfSnoc(c, kept, line); }
    }
  }

  /** An empty first line is governed by nothing, so it is kept and governs nothing. */
  lemma {:induction false} KeptOfEmptyFirst(ts: Recogniser, lines: seq<string>, w: Window)
    requires ts("").None?
    ensures Governing(ts, [""] + lines) == Governing(ts, lines)
    ensures KeptLines(ts, [""] + lines, w) == [""] + KeptLines(ts, lines, w)
  {
    var more := [""] + lines;
    assert more[..|lines| + 1] == more;
    if lines == [] {
      assert more[..0] == [];
    } else {
      var n := |lines| - 1;
      KeptOfEmptyFirst(ts, lines[..n], w);
      assert lines[..n + 1] == lines;
      assert more[..n + 1] == [""] + lines[..n];
    }
  }

  /** White space at the start of a text does not change what a filter returns. */
  lemma FilterIgnoresLeading(ts: Recogniser, c: char, s: string, w: Window)
    requires IsSpace(c) && IgnoresSpace(ts)
    ensures Filtered(ts, [c] + s, w) == Filtered(ts, s, w)
  {
    assert ([c] + s)[1..] == s;
    var lines := Split(s, '\n');
    var kept := KeptLines(ts, lines, w);
    if c == '\n' {
      KeptOfEmptyFirst(ts, lines, w);
      if kept != [] {
        assert Join([""] + kept, '\n') == [c] + Join(kept, '\n') by {
          assert ([""] + kept)[1..] == kept;
        }
        TrimAbsorbs(Join(kept, '\n'), c);
      }
    } else {
      KeptOfFirst(ts, c, lines, w);
      if kept != [] {
        var more := Indented(c, kept);
        assert more[1..] == kept[1..];
        assert Join(more, '\n') == [c] + Join(kept, '\n');
        TrimAbsorbs(Join(kept, '\n'), c);
      }
    }
  }

  /** White space at the end of a text does not change what a filter returns. */
  lemma FilterIgnoresTrailing(ts: Recogniser, c: char, s: string, w: Window)
    requires IsSpace(c) && IgnoresSpace(ts)
    ensures Filtered(ts, s + [c], w) == Filtered(ts, s, w)
  {
    var lines := Split(s, '\n');
    if c == '\n' {
      SplitOfConcat(s, "", c);
      assert s + [c] + "" == s + [c];
      KeptOfSnoc(ts, lines, "", w);
      AppendSpace(KeptLines(ts, lines, w), "", c);
    } else {
      var init, last := lines[..|lines| - 1], lines[|lines| - 1];
      assert lines == init + [last];
      SplitOfSnoc(s, c, '\n');
      assert ts(last + [c]) == ts(last);
      KeptOfSnoc(ts, init, last, w);
      KeptOfSnoc(ts, init, last + [c], w);
      AppendSpace(KeptLines(ts, init, w), last, c);
    }
  }

  /** Adding one white space character to the end of the last line, or an empty line at the
      end, does not change the trimmed text. */
  lemma AppendSpace(init: seq<string>, last: string, c: char)
    requires IsSpace(c)
    ensures Trim(Join(init + [last + [c]], '\n')) == Trim(Join(init + [last], '\n'))
    ensures Trim(Join(init + [""], '\n')) == Trim(Join(init, '\n'))
  {
    if init != [] {
      JoinOfConcat(init, [last + [c]], '\n');
      JoinOfConcat(init, [last], '\n');
      JoinOfConcat(init, [""], '\n');
      var joined := Join(init, '\n');
      assert joined + ['\n'] + (last + [c]) == (joined + ['\n'] + last) + [c];
      assert joined + ['\n'] + "" == joined + ['\n'];
      TrimAbsorbs(joined, '\n');
      TrimAbsorbs(joined + ['\n'] + last, c);
    } else {
      assert init + [last + [c]] == [last + [c]] && init + [last] == [last] && init + [""] == [""];
      TrimAbsorbs(last, c);
    }
  }

  lemma {:induction false} FilterIgnoresTrimLeft(ts: Recogniser, s: string, w: Window)
    requires IgnoresSpace(ts)
    ensures Filtered(ts, TrimLeft(s), w) == Filtered(ts, s, w)
  {
    if s != "" && IsSpace(s[0]) {
      FilterIgnoresTrimLeft(ts, s[1..], w);
      FilterIgnoresLeading(ts, s[0], s[1..], w);
      assert [s[0]] + s[1..] == s;
    }
  }

  lemma {:induction false} FilterIgnoresTrimRight(ts: Recogniser, s: string, w: Window)
    requires IgnoresSpace(ts)
    ensures Filtered(ts, TrimRight(s), w) == Filtered(ts, s, w)
  {
    if s != "" && IsSpace(s[|s| - 1]) {
      var init, c := s[..|s| - 1], s[|s| - 1];
      FilterIgnoresTrimRight(ts, init, w);
      FilterIgnoresTrailing(ts, c, init, w);
      assert init + [c] == s;
    }
  }

  lemma {:induction false} KeptIsFreeOf(ts: Recogniser, lines: seq<string>, w: Window)
    requires FreeOf(lines, '\n')
    ensures FreeOf(KeptLines(ts, lines, w), '\n')
  {
    if lines != [] {
      KeptIsFreeOf(ts, lines[..|lines| - 1], w);
    }
  }

  /** Filtering by one window and then by another is filtering once by their intersection,
      although the text in between has been trimmed and split again. */
  lemma FilterTwice(ts: Recogniser, content: string, a: Window, b: Window)
    requires IgnoresSpace(ts)
    ensures Filtered(ts, Filtered(ts, content, a), b) == Filtered(ts, content, Intersect(a, b))
  {
    var lines := Split(content, '\n');
    var kept := KeptLines(ts, lines, a);
    var joined := Join(kept, '\n');
    FilterIgnoresTrimRight(ts, TrimLeft(joined), b);
    FilterIgnoresTrimLeft(ts, joined, b);
    KeptOfKept(ts, lines, a, b);
    if kept == [] {
      FilteredOfSpace(ts, "", b);
    } else {
      JoinOfSplit(content, '\n');
      KeptIsFreeOf(ts, lines, a);
      SplitOfJoin(kept, '\n');
    }
  }

  lemma {:induction false} KeptUnbounded(ts: Recogniser, lines: seq<string>)
    ensures KeptLines(ts, lines, UNBOUNDED) == lines
  {
    if lines != [] {
      KeptUnbounded(ts, lines[..|lines| - 1]);
    }
  }

  /** With neither bound set the filter returns the whole text, trimmed. */
  lemma FilterUnbounded(ts: Recogniser, content: string)
    ensures Filtered(ts, content, UNBOUNDED) == Trim(content)
  {
    KeptUnbounded(ts, Split(content, '\n'));
    JoinOfSplit(content, '\n');
  }
}
