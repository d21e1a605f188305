/** Which lines of the configuration file the rewrite takes for what. */
module ConfigLines {
  import opened Text
  import opened ConfigRewrite

  lemma LowerOfConcat(a: string, b: string)
    ensures Lower(a + b) == Lower(a) + Lower(b)
  {
  }

  lemma LowerOfSpace(s: string)
    requires AllSpace(s)
    ensures Lower(s) == s
  {
  }

  /** A word in padded text is in the text without the padding. */
  lemma WordInPadded(a: string, s: string, b: string, word: string)
    requires AllSpace(a) && AllSpace(b) && SpaceFree(word) && word != ""
    requires Contains(a + s + b, word)
    ensures Contains(s, word)
  {
    ContainedWithin(a, s, b, word);
  }

  lemma WordInLonger(a: string, s: string, b: string, word: string)
    requires Contains(s, word)
    ensures Contains(a + s + b, word)
  {
    ContainsIff(s, word);
    var x: string, y: string :| s == x + word + y;
    assert a + s + b == (a + x) + word + (y + b);
    ContainsIff(a + s + b, word);
  }

  lemma LowerOfPadded(line: string) returns (a: string, b: string)
    ensures AllSpace(a) && AllSpace(b) && Lower(line) == a + Lower(Trim(line)) + b
  {
    a, b := TrimCuts(line);
    LowerOfConcat(a + Trim(line), b);
    LowerOfConcat(a, Trim(line));
    LowerOfSpace(a);
    LowerOfSpace(b);
  }

  lemma WordInTrimmedIff(line: string, word: string)
    requires SpaceFree(word) && word != ""
    ensures Contains(Lower(Trim(line)), word) <==> Contains(Lower(line), word)
  {
    var a, b := LowerOfPadded(line);
    if Contains(Lower(Trim(line)), word) {
      WordInLonger(a, Lower(Trim(line)), b, word);
    }
    if Contains(Lower(line), word) {
      WordInPadded(a, Lower(Trim(line)), b, word);
    }
  }

  /** A section is opened by any line with the word in it, in upper or lower case. */
  lemma OpensIff(line: string)
    ensures OpensSection(line) <==> exists a: string, b: string :: Lower(line) == a + "heartbeat" + b
  {
    WordInTrimmedIff(line, "heartbeat");
    ContainsIff(Lower(line), "heartbeat");
  }

  lemma {:induction false} TrimRightKeeps(s: string, b: string)
    requires s != "" && !IsSpace(s[|s| - 1])
    ensures s <= TrimRight(s + b)
  {
    if b == "" {
      assert s + b == s;
    } else {
      TrimRightKeeps(s, b[..|b| - 1]);
      assert (s + b)[..|s + b| - 1] == s + b[..|b| - 1];
    }
  }

  /** The interval line is one with that key behind its indentation. */
  lemma HoldsIntervalIff(line: string)
    ensures HoldsInterval(line) <==> exists a: string, b: string :: AllSpace(a) && line == a + "interval:" + b
  {
    var key := "interval:";
    assert key[0] == 'i' && key[|key| - 1] == ':';
    if HoldsInterval(line) {
      var a, b := TrimCuts(line);
      assert Trim(line) == key + Trim(line)[9..];
      assert a + (key + Trim(line)[9..]) + b == a + key + (Trim(line)[9..] + b);
    }
    if a: string, b: string :| AllSpace(a) && line == a + key + b {
      assert line == a + (key + b);
      TrimOfIndented(a, key + b);
      TrimRightKeeps(key, b);
    }
  }

  /** The first character that is not white space. */
  ghost predicate StartsAt(line: string, i: nat) {
    i < |line| && !IsSpace(line[i]) && forall j :: 0 <= j < i ==> IsSpace(line[j])
  }

  lemma {:induction false} TrimLeftStarts(line: string, i: nat)
    requires StartsAt(line, i)
    ensures TrimLeft(line) == line[i..]
  {
    if i > 0 {
      TrimLeftStarts(line[1..], i - 1);
      assert line[1..][i - 1..] == line[i..];
    }
  }

  lemma {:induction false} StartOf(line: string) returns (i: nat)
    requires !AllSpace(line)
    ensures StartsAt(line, i)
  {
    i := 0;
    if IsSpace(line[0]) {
      var k :| 0 <= k < |line| && !IsSpace(line[k]);
      assert !IsSpace(line[1..][k - 1]);
      var j := StartOf(line[1..]);
      i := j + 1;
    }
  }

  lemma TrimStarts(line: string, i: nat)
    requires StartsAt(line, i)
    ensures Trim(line) != "" && Trim(line)[0] == line[i]
  {
    TrimLeftStarts(line, i);
    TrimRightSpec(TrimLeft(line));
  }

  /** A section is closed by a line with something on it, not indented by a space or a tab, which is not
      a comment. */
  lemma ClosesIff(line: string)
    ensures ClosesSection(line) <==>
              exists i: nat :: StartsAt(line, i) && line[i] != '#' && line[0] != ' ' && line[0] != '\t'
  {
    TrimEmptyIffAllSpace(line);
    assert "#"[0] == '#' && " "[0] == ' ' && "\t"[0] == '\t';
    if !AllSpace(line) {
      var i := StartOf(line);
      TrimStarts(line, i);
      assert HasPrefix(Trim(line), "#") <==> line[i] == '#';
      forall k: nat | StartsAt(line, k) ensures k == i {
      }
    }
  }
}
