/** The case in which an update need not settle: two directories of one digest, and a process that
    mentions both. */
module Collisions {
  import opened Options
  import opened Text
  import opened ProcessIdentity
  import opened SystemProcesses
  import opened Reconcile
  import opened Settling

  /** Of the processes 2, 1 and 5 the first belongs to y only, the second to both and the third to x
      only. */
  ghost predicate Overlapping(n: Naming, rs: seq<SystemProcess>, x: string, y: string) {
    && |rs| == 3 && rs[0].pid == 2 && rs[1].pid == 1 && rs[2].pid == 5
    && OnlyOf(n, rs[0], y, x) && BothOf(n, rs[1], x, y) && OnlyOf(n, rs[2], x, y)
  }

  predicate OnlyOf(n: Naming, r: SystemProcess, x: string, y: string) {
    IsOf(n.lower, r, x, "hybrid") && !IsOf(n.lower, r, y, "hybrid")
  }

  predicate BothOf(n: Naming, r: SystemProcess, x: string, y: string) {
    IsOf(n.lower, r, x, "hybrid") && IsOf(n.lower, r, y, "hybrid")
  }

  /** Two directories of the same digest, and a process that mentions both: from PID 5 one pass leads
      to 2 and the next to 1. */
  lemma CollisionDoesNotSettle(h: Host, n: Naming, rs: seq<SystemProcess>, x: string, y: string, u: Update, e: Tracked)
    requires Trim(x) != "" && Trim(y) != "" && n.digest(Trim(x)) == n.digest(Trim(y)) && n.lower("") == ""
    requires RealHost(h, n, Some(rs)) && Overlapping(n, rs, Trim(x), Trim(y))
    requires Reconciles(u) && u.procs.value == [Proc(0, 0, x, "", ""), Proc(0, 0, y, "", "")] && e.pid == 5
    ensures var t := map[ManagedName(n, x, "") := e];
            Reconciled(h, u, Reconciled(h, u, t)) != Reconciled(h, u, t)
  {
    var a, b := Proc(0, 0, x, "", ""), Proc(0, 0, y, "", "");
    assert NameOf(h, a) == NameOf(h, b) by { SameNameIff(n, x, "", y, ""); }
    AnswersOfHost(h, n, rs, a, b);
    assert Unsettled(h, u, Some(e), a, b);
    var t := map[NameOf(h, a) := e];
    assert Lookup(t, NameOf(h, a)) == Some(e);
    PairSettlesIff(h, u, t, a, b);
  }

  lemma AnswersOfHost(h: Host, n: Naming, rs: seq<SystemProcess>, a: Proc, b: Proc)
    requires RealHost(h, n, Some(rs)) && Overlapping(n, rs, Trim(a.installDir), Trim(b.installDir))
    requires n.lower("") == "" && a.role == b.role == "" && a.pid == b.pid == 0
    ensures Candidate(h, a) == 1 && Candidate(h, b) == 2
    ensures Accepts(h, a, 5) && !Accepts(h, b, 5) && Accepts(h, b, 1) && !Accepts(h, a, 2)
  {
    assert MatchRole(n, "") == "hybrid";
    AnswersOfThree(n, rs, Trim(a.installDir), Trim(b.installDir));
    HostAnswers(h, n, rs, a);
    HostAnswers(h, n, rs, b);
  }

  lemma HostAnswers(h: Host, n: Naming, rs: seq<SystemProcess>, p: Proc)
    requires RealHost(h, n, Some(rs)) && p.pid == 0 && MatchRole(n, p.role) == "hybrid"
    ensures forall pid :: Accepts(h, p, pid) <==>
              pid > 0 && MatchAmong(n.lower, rs, pid, Trim(p.installDir), "hybrid") != NotMatched
    ensures var found := FindAmong(n.lower, rs, Trim(p.installDir), "hybrid");
            Candidate(h, p) == if found.Some? then found.value else 0
  {
  }

  lemma AnswersOfThree(n: Naming, rs: seq<SystemProcess>, x: string, y: string)
    requires Overlapping(n, rs, x, y)
    ensures FindAmong(n.lower, rs, x, "hybrid") == Some(1) && FindAmong(n.lower, rs, y, "hybrid") == Some(2)
    ensures MatchAmong(n.lower, rs, 5, x, "hybrid") == Matched && MatchAmong(n.lower, rs, 5, y, "hybrid") == NotMatched
    ensures MatchAmong(n.lower, rs, 1, y, "hybrid") == Matched && MatchAmong(n.lower, rs, 2, x, "hybrid") == NotMatched
  {
    var rs1 := rs[1..];
    var rs2 := rs1[1..];
    assert rs1[0] == rs[1] && rs2[0] == rs[2];
    assert FindAmong(n.lower, rs1, x, "hybrid") == Some(1);
    assert MatchAmong(n.lower, rs2, 5, x, "hybrid") == Matched;
    assert MatchAmong(n.lower, rs2, 5, y, "hybrid") == NotMatched;
    assert MatchAmong(n.lower, rs1, 5, x, "hybrid") == Matched;
    assert MatchAmong(n.lower, rs1, 5, y, "hybrid") == NotMatched;
  }

  // ----- Such processes -----

  const HOME := "-DSEATUNNEL_HOME="

  /** A command line of one word: what follows the switch, and the main class. */
  function CommandOf(dirs: string): string {
    HOME + dirs + ";" + MAIN_CLASS
  }

  /** Neither white space nor a slash of either kind. */
  predicate Solid(s: string) {
    forall i :: 0 <= i < |s| ==> '!' <= s[i] <= '~' && s[i] != '/' && s[i] != '\\'
  }

  lemma SolidParts(a: string, b: string)
    requires Solid(a) && Solid(b)
    ensures Solid(a + b)
  {
  }

  lemma MainClassIsSolid()
    ensures Solid(MAIN_CLASS)
  {
    SolidParts("org.apache.seatunnel.", "core.starter.seatunnel.");
    SolidParts("org.apache.seatunnel." + "core.starter.seatunnel.", "SeaTunnelServer");
  }

  lemma EndsAreSolid()
    ensures Solid(HOME) && Solid(";" + MAIN_CLASS)
  {
    MainClassIsSolid();
    SolidParts(";", MAIN_CLASS);
  }

  lemma {:induction false} WordsOfOne(s: string)
    requires s != "" && forall i :: 0 <= i < |s| ==> !IsSpace(s[i])
    ensures |Words(s)| == 1
  {
    if |s| > 1 {
      WordsOfOne(s[1..]);
    }
  }

  lemma SolidWithin(a: string, middle: string, b: string)
    requires Solid(a) && Solid(b) && forall i :: 0 <= i < |middle| ==> '!' <= middle[i] <= '~' && middle[i] != '\\'
    ensures forall i :: 0 <= i < |a + middle + b| ==> '!' <= (a + middle + b)[i] <= '~' && (a + middle + b)[i] != '\\'
  {
  }

  /** Such a command line is of the default role, and has no backslashes. */
  lemma CommandIsPlain(n: Naming, dirs: string)
    requires forall i :: 0 <= i < |dirs| ==> '!' <= dirs[i] <= '~' && dirs[i] != '\\'
    ensures RoleAmong(n.lower, Words(CommandOf(dirs))) == "hybrid" && Slashed(CommandOf(dirs)) == CommandOf(dirs)
  {
    EndsAreSolid();
    SolidWithin(HOME, dirs, ";" + MAIN_CLASS);
    assert CommandOf(dirs) == HOME + dirs + (";" + MAIN_CLASS);
    WordsOfOne(CommandOf(dirs));
  }

  lemma Within(a: string, part: string, b: string)
    ensures Contains(a + part + b, part)
  {
    var whole := a + part + b;
    assert whole[|a|..|a| + |part|] == part;
    assert OccursAt(whole, part, |a|);
  }

  lemma CommandHasMain(dirs: string)
    ensures Contains(CommandOf(dirs), MAIN_CLASS)
  {
    Within(HOME + dirs + ";", MAIN_CLASS, "");
    assert CommandOf(dirs) == HOME + dirs + ";" + MAIN_CLASS + "";
  }

  lemma ContainedPart(s: string, whole: string, a: string, part: string, b: string)
    requires whole == a + part + b && Contains(s, whole)
    ensures Contains(s, part)
  {
    var i :| 0 <= i <= |s| && OccursAt(s, whole, i);
    forall k | 0 <= k < |part| ensures s[i + |a| + k] == part[k] {
      assert s[i..i + |whole|][|a| + k] == whole[|a| + k];
    }
    assert OccursAt(s, part, i + |a|);
  }

  /** Whatever marks a directory has its name in it. */
  lemma MarkerHasDir(dir: string, m: string) returns (a: string, b: string)
    requires m in Markers(dir)
    ensures m == a + dir + b
  {
    var k :| 0 <= k < 6 && m == Markers(dir)[k];
    a := if k == 0 then "-Dseatunnel.logs.path=" else if k == 1 then "-Dseatunnel.config="
         else if k == 2 then "-Dhazelcast.config=" else if k == 3 then HOME else "";
    b := if k == 0 then "/logs" else if k <= 2 then "/config/" else if k == 3 then ""
         else if k == 4 then "/lib/" else "/starter/";
    assert m == a + dir + b;
  }

  /** The directory named by a slash and a letter. */
  lemma ShortDir(c: char)
    requires 'a' <= c <= 'z'
    ensures var d := ['/', c]; Trim(d) == d && NormalDir(d) == d && !HasDrive(d)
  {
    var d := ['/', c];
    assert TrimLeft(d) == d && TrimRight(d) == d;
    assert TrimQuotes(d) == d && Slashed(d) == d;
  }

  lemma MentionsShort(n: Naming, command: string, a: string, m: string, b: string, c: char)
    requires 'a' <= c <= 'z' && m in Markers(['/', c]) && command == a + m + b && Slashed(command) == command
    ensures Mentions(n.lower, command, ['/', c])
  {
    ShortDir(c);
    Within(a, m, b);
  }

  lemma MentionsNotShort(n: Naming, command: string, other: char)
    requires 'a' <= other <= 'z' && Slashed(command) == command && !Contains(command, ['/', other])
    ensures !Mentions(n.lower, command, ['/', other])
  {
    var d := ['/', other];
    ShortDir(other);
    if m :| m in Markers(d) && Contains(command, m) {
      var a, b := MarkerHasDir(d, m);
      ContainedPart(command, m, a, d, b);
    }
  }

  lemma OneSlash(a: string, c: char, b: string, other: char)
    requires Solid(a) && Solid(b) && c != '/' && c != other
    ensures !Contains(a + ['/', c] + b, ['/', other])
  {
    var whole := a + ['/', c] + b;
    forall i | 0 <= i <= |whole| && i + 2 <= |whole| ensures !OccursAt(whole, ['/', other], i) {
      if i != |a| {
        assert whole[i] != '/';
      }
      assert whole[i..i + 2] == [whole[i], whole[i + 1]];
    }
  }

  // The processes themselves.

  lemma ShortProcess(n: Naming, r: SystemProcess, c: char, other: char)
    requires 'a' <= c <= 'z' && 'a' <= other <= 'z' && c != other && r.command == CommandOf(['/', c])
    ensures OnlyOf(n, r, ['/', c], ['/', other])
  {
    var command, d := CommandOf(['/', c]), ['/', c];
    CommandIsPlain(n, d);
    CommandHasMain(d);
    assert Mentions(n.lower, command, d) by {
      assert Markers(d)[3] == HOME + d;
      Regrouped(HOME, d, "", ";", MAIN_CLASS);
      MentionsShort(n, command, "", HOME + d, ";" + MAIN_CLASS, c);
    }
    assert !Contains(command, ['/', other]) by {
      EndsAreSolid();
      Joined(HOME, d, ";", MAIN_CLASS);
      OneSlash(HOME, c, ";" + MAIN_CLASS, other);
    }
    MentionsNotShort(n, command, other);
  }

  lemma Joined(a: string, b: string, c: string, d: string)
    ensures a + b + c + d == a + b + (c + d)
  {
  }

  lemma Regrouped(home: string, d: string, more: string, c: string, main: string)
    ensures home + (d + more) + c + main == "" + (home + d) + (more + c + main)
  {
  }

  lemma Regrouped2(home: string, d: string, more: string, c: string, main: string)
    ensures home + (d + more) + c + main == (home + d) + more + (c + main)
  {
  }

  lemma BothProcess(n: Naming, r: SystemProcess, c: char, other: char)
    requires 'a' <= c <= 'z' && 'a' <= other <= 'z' && r.command == CommandOf(['/', c] + (['/', other] + "/lib/"))
    ensures BothOf(n, r, ['/', c], ['/', other])
  {
    var d, m := ['/', c], ['/', other] + "/lib/";
    var command := CommandOf(d + m);
    CommandIsPlain(n, d + m);
    CommandHasMain(d + m);
    assert Mentions(n.lower, command, d) by {
      assert Markers(d)[3] == HOME + d;
      Regrouped(HOME, d, m, ";", MAIN_CLASS);
      MentionsShort(n, command, "", HOME + d, m + ";" + MAIN_CLASS, c);
    }
    assert Mentions(n.lower, command, ['/', other]) by {
      assert Markers(['/', other])[4] == m;
      Regrouped2(HOME, d, m, ";", MAIN_CLASS);
      MentionsShort(n, command, HOME + d, m, ";" + MAIN_CLASS, other);
    }
  }

  /** So there are processes as the lemma about collisions wants them. */
  lemma ProcessesCanOverlap(n: Naming, r2: SystemProcess, r1: SystemProcess, r5: SystemProcess, x: char, y: char)
    requires 'a' <= x <= 'z' && 'a' <= y <= 'z' && x != y
    requires r2 == SystemProcess(2, CommandOf(['/', y]))
    requires r1 == SystemProcess(1, CommandOf(['/', x] + (['/', y] + "/lib/")))
    requires r5 == SystemProcess(5, CommandOf(['/', x]))
    ensures ProcessList([r2, r1, r5]) && Overlapping(n, [r2, r1, r5], ['/', x], ['/', y])
  {
    ShortProcess(n, r2, y, x);
    ShortProcess(n, r5, x, y);
    BothProcess(n, r1, x, y);
    Overlap(n, r2, r1, r5, ['/', x], ['/', y]);
  }

  lemma Overlap(n: Naming, r2: SystemProcess, r1: SystemProcess, r5: SystemProcess, x: string, y: string)
    requires r2.pid == 2 && r1.pid == 1 && r5.pid == 5
    requires OnlyOf(n, r2, y, x) && BothOf(n, r1, x, y) && OnlyOf(n, r5, x, y)
    ensures ProcessList([r2, r1, r5]) && Overlapping(n, [r2, r1, r5], x, y)
  {
  }

  /** And with them a host, a table and an update that does not settle, if the digests of two
      directories are the same. */
  lemma CollisionCanHappen(n: Naming, normalizeHome: string -> string, u: Update, e: Tracked)
      returns (h: Host, t: Table)
    requires HexDigests(n) && n.lower("") == "" && n.digest("/a") == n.digest("/b")
    requires Reconciles(u) && u.procs.value == [Proc(0, 0, "/a", "", ""), Proc(0, 0, "/b", "", "")] && e.pid == 5
    ensures exists rs :: RealHost(h, n, Some(rs))
    ensures Reconciled(h, u, Reconciled(h, u, t)) != Reconciled(h, u, t)
  {
    var r2, r1 := SystemProcess(2, CommandOf("/b")), SystemProcess(1, CommandOf("/a" + ("/b" + "/lib/")));
    var r5 := SystemProcess(5, CommandOf("/a"));
    assert "/a" == ['/', 'a'] && "/b" == ['/', 'b'];
    ProcessesCanOverlap(n, r2, r1, r5, 'a', 'b');
    ShortDir('a');
    ShortDir('b');
    h := HostOf(n, Some([r2, r1, r5]), normalizeHome);
    t := map[ManagedName(n, "/a", "") := e];
    CollisionDoesNotSettle(h, n, [r2, r1, r5], "/a", "/b", u, e);
  }
}
