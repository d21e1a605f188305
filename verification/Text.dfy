/** Strings as the agent handles them: splitting and joining on one separator,
    and trimming with Go's notion of white space. */
module Text {

  /** Go's unicode.IsSpace. */
  predicate IsSpace(c: char) {
    var code := c as int;
    || 0x09 <= code <= 0x0D
    || code == 0x20
    || code == 0x85
    || code == 0xA0
    || code == 0x1680
    || 0x2000 <= code <= 0x200A
    || code == 0x2028
    || code == 0x2029
    || code == 0x202F
    || code == 0x205F
    || code == 0x3000
  }

  predicate HasPrefix(s: string, prefix: string) {
    prefix <= s
  }

  predicate HasSuffix(s: string, suffix: string) {
    |suffix| <= |s| && s[|s| - |suffix|..] == suffix
  }

  predicate OccursAt(s: string, part: string, i: nat) {
    i + |part| <= |s| && s[i..i + |part|] == part
  }

  predicate Contains(s: string, part: string) {
    exists i :: 0 <= i <= |s| && OccursAt(s, part, i)
  }

  /** Lower case, as far as ASCII goes. */
  function ToLower(c: char): char {
    if 'A' <= c <= 'Z' then (c as int + 32) as char else c
  }

  function Lower(s: string): (r: string)
    ensures |r| == |s| && forall i :: 0 <= i < |s| ==> r[i] == ToLower(s[i])
  {
    seq(|s|, i requires 0 <= i < |s| => ToLower(s[i]))
  }

  // ----- Splitting and joining -----

  function Split(s: string, sep: char): (parts: seq<string>)
    ensures |parts| >= 1
  {
    if s == "" then [""]
    else if s[0] == sep then [""] + Split(s[1..], sep)
    else
      var rest := Split(s[1..], sep);
      [[s[0]] + rest[0]] + rest[1..]
  }

  function Join(parts: seq<string>, sep: char): string {
    if parts == [] then ""
    else if |parts| == 1 then parts[0]
    else parts[0] + [sep] + Join(parts[1..], sep)
  }

  ghost predicate FreeOf(parts: seq<string>, c: char) {
    forall i :: 0 <= i < |parts| ==> c !in parts[i]
  }

  /** Joining undoes splitting. */
  lemma {:induction false} JoinOfSplit(s: string, sep: char)
    ensures Join(Split(s, sep), sep) == s
    ensures FreeOf(Split(s, sep), sep)
  {
    if s != "" {
      JoinOfSplit(s[1..], sep);
      var rest := Split(s[1..], sep);
      if s[0] == sep {
        assert ([""] + rest)[1..] == rest;
        assert s == [sep] + s[1..];
      } else {
        var parts := [[s[0]] + rest[0]] + rest[1..];
        assert parts[1..] == rest[1..];
        if |rest| == 1 {
          assert parts == [[s[0]] + rest[0]];
        } else {
          assert Join(parts, sep) == [s[0]] + Join(rest, sep);
        }
        assert s == [s[0]] + s[1..];
      }
    }
  }

  /** A part without the separator comes back whole, followed by the split of what it precedes. */
  lemma {:induction false} SplitAfterPart(part: string, rest: string, sep: char)
    requires sep !in part
    ensures Split(part, sep) == [part]
    ensures Split(part + [sep] + rest, sep) == [part] + Split(rest, sep)
  {
    var whole := part + [sep] + rest;
    if part == "" {
      assert whole[1..] == rest;
    } else {
      SplitAfterPart(part[1..], rest, sep);
      assert whole[1..] == part[1..] + [sep] + rest;
      assert [part[0]] + part[1..] == part;
      var tail := Split(whole[1..], sep);
      assert tail[1..] == Split(rest, sep);
    }
  }

  /** Splitting undoes joining, for at least one part and parts without the separator. */
  lemma {:induction false} SplitOfJoin(parts: seq<string>, sep: char)
    requires parts != [] && FreeOf(parts, sep)
    ensures Split(Join(parts, sep), sep) == parts
  {
    assert sep !in parts[0];
    if |parts| == 1 {
      SplitAfterPart(parts[0], "", sep);
    } else {
      SplitOfJoin(parts[1..], sep);
      SplitAfterPart(parts[0], Join(parts[1..], sep), sep);
    }
  }

  lemma {:induction false} JoinOfConcat(a: seq<string>, b: seq<string>, sep: char)
    requires a != [] && b != []
    ensures Join(a + b, sep) == Join(a, sep) + [sep] + Join(b, sep)
  {
    if |a| == 1 {
      assert (a + b)[1..] == b;
    } else {
      JoinOfConcat(a[1..], b, sep);
      assert (a + b)[1..] == a[1..] + b;
    }
  }

  /** Splitting at one occurrence of the separator cuts the list of parts in two. */
  lemma SplitOfConcat(a: string, b: string, sep: char)
    ensures Split(a + [sep] + b, sep) == Split(a, sep) + Split(b, sep)
  {
    JoinOfSplit(a, sep);
    JoinOfSplit(b, sep);
    JoinOfConcat(Split(a, sep), Split(b, sep), sep);
    SplitOfJoin(Split(a, sep) + Split(b, sep), sep);
  }

  /** A character other than the separator, added at the end, lands in the last part. */
  lemma SplitOfSnoc(s: string, c: char, sep: char)
    requires c != sep
    ensures var parts := Split(s, sep);
            Split(s + [c], sep) == parts[..|parts| - 1] + [parts[|parts| - 1] + [c]]
  {
    var parts := Split(s, sep);
    var init, last := parts[..|parts| - 1], parts[|parts| - 1];
    assert parts == init + [last];
    assert Join(init + [last], sep) == s && FreeOf(init + [last + [c]], sep) by { JoinOfSplit(s, sep); }
    assert Join(init + [last + [c]], sep) == s + [c] by { JoinOfLonger(init, last, c, sep); }
    SplitOfJoin(init + [last + [c]], sep);
  }

  lemma JoinOfLonger(init: seq<string>, last: string, c: char, sep: char)
    ensures Join(init + [last + [c]], sep) == Join(init + [last], sep) + [c]
  {
    if init == [] {
      assert init + [last] == [last] && init + [last + [c]] == [last + [c]];
    } else {
      JoinOfConcat(init, [last], sep);
      JoinOfConcat(init, [last + [c]], sep);
      assert Join(init, sep) + [sep] + (last + [c]) == (Join(init, sep) + [sep] + last) + [c];
    }
  }

  // ----- Trimming -----

  function TrimLeft(s: string): string {
    if s != "" && IsSpace(s[0]) then TrimLeft(s[1..]) else s
  }

  function TrimRight(s: string): string {
    if s != "" && IsSpace(s[|s| - 1]) then TrimRight(s[..|s| - 1]) else s
  }

  /** Go's strings.TrimSpace. */
  function Trim(s: string): string {
    TrimRight(TrimLeft(s))
  }

  predicate AllSpace(s: string) {
    forall i :: 0 <= i < |s| ==> IsSpace(s[i])
  }

  predicate SpaceFree(s: string) {
    forall i :: 0 <= i < |s| ==> !IsSpace(s[i])
  }

  /** What Trim returns has no white space at either end. */
  predicate Trimmed(s: string) {
    s == "" || (!IsSpace(s[0]) && !IsSpace(s[|s| - 1]))
  }

  lemma {:induction false} TrimLeftOfSnoc(s: string, c: char)
    requires IsSpace(c)
    ensures TrimLeft(s + [c]) == if TrimLeft(s) == "" then "" else TrimLeft(s) + [c]
  {
    if s == "" {
      assert ([c])[1..] == "";
    } else if IsSpace(s[0]) {
      TrimLeftOfSnoc(s[1..], c);
      assert (s + [c])[1..] == s[1..] + [c];
    }
  }

  /** White space added at either end does not change the trimmed text. */
  lemma TrimAbsorbs(s: string, c: char)
    requires IsSpace(c)
    ensures Trim([c] + s) == Trim(s)
    ensures Trim(s + [c]) == Trim(s)
  {
    assert ([c] + s)[1..] == s;
    TrimLeftOfSnoc(s, c);
    if TrimLeft(s) != "" {
      var t := TrimLeft(s);
      assert (t + [c])[..|t|] == t;
    }
  }

  lemma SuffixBehind(c: char, s: string, suffix: string)
    requires HasSuffix(s, suffix)
    ensures HasSuffix([c] + s, suffix)
  {
    assert ([c] + s)[|s| + 1 - |suffix|..] == s[|s| - |suffix|..];
  }

  lemma {:induction false} TrimLeftIsSuffix(s: string)
    ensures HasSuffix(s, TrimLeft(s))
  {
    if s != "" && IsSpace(s[0]) {
      TrimLeftIsSuffix(s[1..]);
      SuffixBehind(s[0], s[1..], TrimLeft(s[1..]));
      assert [s[0]] + s[1..] == s;
    }
  }

  lemma {:induction false} TrimLeftStopsAt(s: string)
    ensures if TrimLeft(s) == "" then AllSpace(s) else !IsSpace(TrimLeft(s)[0]) && TrimLeft(s)[0] in s
  {
    if s != "" && IsSpace(s[0]) {
      TrimLeftStopsAt(s[1..]);
      SpaceInFront(s);
    }
  }

  lemma SpaceInFront(s: string)
    requires s != "" && IsSpace(s[0])
    ensures AllSpace(s[1..]) ==> AllSpace(s)
    ensures forall c :: c in s[1..] ==> c in s
  {
    assert s == [s[0]] + s[1..];
  }

  lemma TrimLeftSpec(s: string)
    ensures TrimLeft(s) != "" ==> !IsSpace(TrimLeft(s)[0])
    ensures HasSuffix(s, TrimLeft(s))
    ensures TrimLeft(s) == "" <==> AllSpace(s)
  {
    TrimLeftIsSuffix(s);
    TrimLeftStopsAt(s);
  }

  lemma {:induction false} TrimRightSpec(s: string)
    ensures TrimRight(s) != "" ==> !IsSpace(TrimRight(s)[|TrimRight(s)| - 1])
    ensures TrimRight(s) <= s
    ensures s != "" && !IsSpace(s[0]) ==> TrimRight(s) != ""
  {
    if s != "" && IsSpace(s[|s| - 1]) {
      TrimRightSpec(s[..|s| - 1]);
    }
  }

  lemma TrimIsTrimmed(s: string)
    ensures Trimmed(Trim(s))
  {
    TrimLeftSpec(s);
    TrimRightSpec(TrimLeft(s));
  }

  lemma TrimOfTrimmed(s: string)
    requires Trimmed(s)
    ensures Trim(s) == s
  {
  }

  lemma TrimKeepsFreeOf(s: string, c: char)
    requires c !in s
    ensures c !in Trim(s)
  {
    TrimLeftSpec(s);
    TrimRightSpec(TrimLeft(s));
  }

  /** Text of white space only is exactly the text that trims to nothing. */
  lemma TrimEmptyIffAllSpace(s: string)
    ensures Trim(s) == "" <==> AllSpace(s)
  {
    TrimLeftSpec(s);
    TrimRightSpec(TrimLeft(s));
  }

  // ----- Decimal numerals -----

  function Digit(n: nat): (c: char)
    requires n < 10
    ensures '0' <= c <= '9'
  {
    ('0' as int + n) as char
  }

  function Decimal(n: nat): (s: string)
    ensures s != "" && forall i :: 0 <= i < |s| ==> '0' <= s[i] <= '9'
  {
    if n < 10 then [Digit(n)] else Decimal(n / 10) + [Digit(n % 10)]
  }

  function DigitValue(c: char): nat
    requires '0' <= c <= '9'
  {
    c as int - '0' as int
  }

  predicate IsNumeral(s: string) {
    s != "" && forall i :: 0 <= i < |s| ==> '0' <= s[i] <= '9'
  }

  /** The number that a numeral denotes. */
  function NumberOf(s: string): nat
    requires forall i :: 0 <= i < |s| ==> '0' <= s[i] <= '9'
  {
    if s == "" then 0 else 10 * NumberOf(s[..|s| - 1]) + DigitValue(s[|s| - 1])
  }

  /** A decimal numeral denotes its number, and does not begin with a zero unless it is one. */
  lemma {:induction false} DecimalDenotes(n: nat)
    ensures NumberOf(Decimal(n)) == n
    ensures Decimal(n)[0] == '0' <==> n == 0
  {
    if n < 10 {
      assert [Digit(n)][..0] == "";
      assert NumberOf("") == 0;
    } else {
      var front, last := Decimal(n / 10), Digit(n % 10);
      DecimalDenotes(n / 10);
      assert (front + [last])[..|front|] == front;
    }
  }

  /** A text contains another if it is made of something before it, it, and something behind it. */
  lemma ContainsIff(s: string, part: string)
    ensures Contains(s, part) <==> exists a: string, b: string :: s == a + part + b
  {
    if Contains(s, part) {
      var i :| 0 <= i <= |s| && OccursAt(s, part, i);
      assert s == s[..i] + part + s[i + |part|..];
    }
    if a: string, b: string :| s == a + part + b {
      assert OccursAt(s, part, |a|);
    }
  }

  lemma {:induction false} TrimLeftCuts(s: string)
    ensures exists a :: AllSpace(a) && s == a + TrimLeft(s)
  {
    if s != "" && IsSpace(s[0]) {
      TrimLeftCuts(s[1..]);
      var a :| AllSpace(a) && s[1..] == a + TrimLeft(s[1..]);
      assert s == [s[0]] + s[1..] == ([s[0]] + a) + TrimLeft(s);
    } else {
      assert AllSpace("") && s == "" + s;
    }
  }

  lemma {:induction false} TrimRightCuts(s: string)
    ensures exists b :: AllSpace(b) && s == TrimRight(s) + b
  {
    if s != "" && IsSpace(s[|s| - 1]) {
      var n := |s| - 1;
      TrimRightCuts(s[..n]);
      var b :| AllSpace(b) && s[..n] == TrimRight(s[..n]) + b;
      assert s == s[..n] + [s[n]] == TrimRight(s) + (b + [s[n]]);
    } else {
      assert AllSpace("") && s == s + "";
    }
  }

  lemma {:induction false} TrimOfPadded(before: string, s: string, behind: string)
    requires AllSpace(before) && AllSpace(behind)
    ensures Trim(before + s + behind) == Trim(s)
    decreases |before| + |behind|
  {
    if before != "" {
      TrimOfPadded(before[1..], s, behind);
      TrimAbsorbs(before[1..] + s + behind, before[0]);
      assert before + s + behind == [before[0]] + (before[1..] + s + behind);
    } else if behind != "" {
      var n := |behind| - 1;
      TrimOfPadded(before, s, behind[..n]);
      TrimAbsorbs(before + s + behind[..n], behind[n]);
      assert before + s + behind == (before + s + behind[..n]) + [behind[n]];
    } else {
      assert before + s + behind == s;
    }
  }

  /** Trimming takes off white space, and nothing else. */
  lemma TrimCuts(s: string) returns (a: string, b: string)
    ensures AllSpace(a) && AllSpace(b) && s == a + Trim(s) + b
  {
    TrimLeftCuts(s);
    TrimRightCuts(TrimLeft(s));
    a :| AllSpace(a) && s == a + TrimLeft(s);
    b :| AllSpace(b) && TrimLeft(s) == Trim(s) + b;
    assert a + (Trim(s) + b) == a + Trim(s) + b;
  }

  lemma CharOfThree(a: string, s: string, b: string, k: nat)
    requires k < |a + s + b|
    ensures (a + s + b)[k]
         == if k < |a| then a[k] else if k < |a| + |s| then s[k - |a|] else b[k - |a| - |s|]
  {
  }

  /** A text that has nothing in common with what stands around another is in that other. */
  lemma ContainedWithin(a: string, s: string, b: string, part: string)
    requires part != "" && Contains(a + s + b, part)
    requires forall i :: 0 <= i < |part| ==> part[i] !in a && part[i] !in b
    ensures Contains(s, part)
  {
    var whole, n := a + s + b, |part|;
    var i :| 0 <= i <= |whole| && OccursAt(whole, part, i);
    assert whole[i..i + n][0] == whole[i] && whole[i..i + n][n - 1] == whole[i + n - 1];
    CharOfThree(a, s, b, i);
    CharOfThree(a, s, b, i + n - 1);
    assert s[i - |a|..i - |a| + n] == whole[i..i + n];
    assert OccursAt(s, part, i - |a|);
  }
}
