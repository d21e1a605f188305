/** What a command line says of the directory and the role of its process. */
module CommandLines {
  import opened Options
  import opened Text
  import opened SystemProcesses

  // ----- Words -----

  lemma {:induction false} WordsOfWord(s: string)
    requires s != "" && SpaceFree(s)
    ensures Words(s) == [s]
  {
    if |s| == 1 {
      assert s[1..] == "";
      assert s == [s[0]];
    } else {
      WordsOfWord(s[1..]);
      assert s == [s[0]] + s[1..];
    }
  }

  lemma WordsOfLead(c: char, s: string)
    ensures IsSpace(c) ==> Words([c] + s) == Words(s)
    ensures !IsSpace(c) && s != "" && IsSpace(s[0]) ==> Words([c] + s) == [[c]] + Words(s)
    ensures !IsSpace(c) && s != "" && !IsSpace(s[0]) && Words(s) != [] ==>
              Words([c] + s) == [[c] + Words(s)[0]] + Words(s)[1..]
  {
    assert ([c] + s)[1..] == s;
  }

  lemma WordsStart(s: string)
    requires s != "" && !IsSpace(s[0])
    ensures Words(s) != []
  {
  }

  lemma ConsFirst(a: seq<string>, b: seq<string>, c: char)
    requires a != []
    ensures [[c] + (a + b)[0]] + (a + b)[1..] == ([[c] + a[0]] + a[1..]) + b
    ensures [[c]] + (a + b) == ([[c]] + a) + b
  {
    assert (a + b)[1..] == a[1..] + b;
  }

  /** White space parts the words before it from those behind it. */
  lemma {:induction false} WordsOfParts(a: string, space: char, b: string)
    requires IsSpace(space)
    ensures Words(a + [space] + b) == Words(a) + Words(b)
  {
    var whole := a + [space] + b;
    if a == "" {
      assert whole == [space] + b;
      WordsOfLead(space, b);
      assert [] + Words(b) == Words(b);
    } else {
      var rest := a[1..] + [space] + b;
      assert whole == [a[0]] + rest && a == [a[0]] + a[1..];
      WordsOfParts(a[1..], space, b);
      WordsOfLead(a[0], rest);
      WordsOfLead(a[0], a[1..]);
      if !IsSpace(a[0]) {
        LettersInFront(a[0], a[1..], space, b);
      }
    }
  }

  lemma LettersInFront(c: char, a: string, space: char, b: string)
    requires IsSpace(space) && !IsSpace(c) && Words(a + [space] + b) == Words(a) + Words(b)
    ensures Words([c] + (a + [space] + b)) == Words([c] + a) + Words(b)
  {
    var rest := a + [space] + b;
    WordsOfLead(c, rest);
    if a == "" {
      assert rest[0] == space;
      assert [c] + "" == [c];
      WordsOfWord([c]);
      assert Words("") == [] && [] + Words(b) == Words(b);
    } else {
      assert rest[0] == a[0];
      WordsOfLead(c, a);
      if IsSpace(a[0]) {
        InTurn([[c]], Words(a), Words(b));
      } else {
        WordsStart(a);
        ConsFirst(Words(a), Words(b), c);
      }
    }
  }

  lemma InTurn(a: seq<string>, b: seq<string>, c: seq<string>)
    ensures a + (b + c) == (a + b) + c
  {
  }

  // ----- The role -----

  /** Word i is a switch for a role that is known. */
  predicate NamesRole(lower: string -> string, words: seq<string>, i: nat) {
    i + 1 < |words| && words[i] == "-r" && lower(TrimQuotes(words[i + 1])) in {"master", "worker"}
  }

  /** The role is the one behind the first such switch, */
  lemma {:induction false} FirstRoleCounts(lower: string -> string, words: seq<string>, i: nat)
    requires NamesRole(lower, words, i) && forall j: nat :: j < i ==> !NamesRole(lower, words, j)
    ensures RoleAmong(lower, words) == lower(TrimQuotes(words[i + 1]))
  {
    if i > 0 {
      assert !NamesRole(lower, words, 0);
      forall j: nat | j < i - 1 ensures !NamesRole(lower, words[1..], j) {
        assert !NamesRole(lower, words, j + 1);
      }
      FirstRoleCounts(lower, words[1..], i - 1);
    }
  }

  /** and the default one without any. */
  lemma {:induction false} NoRoleIsHybrid(lower: string -> string, words: seq<string>)
    requires forall j: nat :: !NamesRole(lower, words, j)
    ensures RoleAmong(lower, words) == "hybrid"
  {
    if |words| >= 2 {
      assert !NamesRole(lower, words, 0);
      forall j: nat ensures !NamesRole(lower, words[1..], j) {
        assert !NamesRole(lower, words, j + 1);
      }
      NoRoleIsHybrid(lower, words[1..]);
    }
  }

  // ----- The directory -----

  predicate IsQuote(c: char) {
    c == '"' || c == '\''
  }

  lemma TrimRightOfSnoc(s: string, c: char, cut: set<char>)
    ensures TrimRightOf(s + [c], cut) == if c in cut then TrimRightOf(s, cut) else s + [c]
  {
    assert (s + [c])[..|s|] == s;
  }

  /** A name of a directory in its own form: no quotes or slashes at its ends, but one in front
      perhaps, and no backslashes. */
  predicate IsNormal(d: string) {
    d != "" && !IsQuote(d[0]) && !IsQuote(d[|d| - 1]) && d[|d| - 1] != '/' && '\\' !in d
  }

  lemma NormalIsNormal(d: string)
    requires IsNormal(d)
    ensures NormalDir(d) == d
  {
    assert Slashed(d) == d;
  }

  /** A slash at the end does not count, */
  lemma TrailingSlash(d: string)
    requires IsNormal(d)
    ensures NormalDir(d + "/") == d
  {
    var whole := d + "/";
    assert whole[0] == d[0] && whole[|whole| - 1] == '/';
    assert Slashed(whole) == whole;
    TrimRightOfSnoc(d, '/', {'/'});
    assert TrimRightOf(d, {'/'}) == d;
  }

  /** nor do quotes around it. */
  lemma QuotedDir(d: string, q: char)
    requires IsNormal(d) && IsQuote(q)
    ensures NormalDir([q] + d + [q]) == d
  {
    var whole := [q] + d + [q];
    assert whole[1..] == d + [q];
    assert TrimLeftOf(whole, {'"', '\''}) == d + [q];
    TrimRightOfSnoc(d, q, {'"', '\''});
    NormalIsNormal(d);
  }

  /** The command has one of the six settings, or paths, of the directory. */
  ghost predicate HasSetting(command: string, dir: string) {
    || Contains(command, "-Dseatunnel.logs.path=" + dir + "/logs")
    || Contains(command, "-Dseatunnel.config=" + dir + "/config/")
    || Contains(command, "-Dhazelcast.config=" + dir + "/config/")
    || Contains(command, "-DSEATUNNEL_HOME=" + dir)
    || Contains(command, dir + "/lib/")
    || Contains(command, dir + "/starter/")
  }

  /** On a path with slashes and no drive letter, upper and lower case count. */
  lemma MentionsIff(lower: string -> string, command: string, dir: string)
    requires IsNormal(dir) && '\\' !in command && !HasDrive(dir)
    ensures Mentions(lower, command, dir) <==> HasSetting(command, dir)
  {
    NormalIsNormal(dir);
    assert Slashed(command) == command;
    var ms := Markers(dir);
    assert forall m :: m in ms <==> m == ms[0] || m == ms[1] || m == ms[2] || m == ms[3] || m == ms[4] || m == ms[5];
  }

  /** On a drive, which is a letter, a colon and a slash at the start, they do not. */
  lemma MentionsOnDriveIff(lower: string -> string, command: string, letter: char, rest: string)
    requires letter as int < 0x80 && IsNormal([letter] + ":/" + rest) && '\\' !in command
    ensures var dir := [letter] + ":/" + rest;
            Mentions(lower, command, dir) <==> exists m :: m in Markers(dir) && Contains(lower(command), lower(m))
  {
    var dir := [letter] + ":/" + rest;
    NormalIsNormal(dir);
    assert dir[1] == ":/"[0] == ':' && dir[2] == ":/"[1] == '/';
    assert Slashed(command) == command;
  }

  lemma HasDriveIff(dir: string)
    ensures HasDrive(dir) <==> exists letter: char, rest: string ::
              letter as int < 0x80 && dir == [letter] + ":/" + rest
  {
    assert ":/"[0] == ':' && ":/"[1] == '/';
    if HasDrive(dir) {
      assert dir == [dir[0]] + ":/" + dir[3..];
    }
    if letter: char, rest: string :| letter as int < 0x80 && dir == [letter] + ":/" + rest {
      assert dir[0] == letter && dir[1] == ':' && dir[2] == '/';
    }
  }

  // ----- Processes -----

  /** A process is one of a directory and a role if it runs the server, has a setting of the directory,
      if one is given, and was started for the role. */
  lemma IsOfIff(lower: string -> string, r: SystemProcess, dir: string, role: string)
    requires dir == "" || (IsNormal(dir) && !HasDrive(dir))
    requires '\\' !in r.command
    ensures IsOf(lower, r, dir, role) <==>
              && (exists a: string, b: string :: r.command == a + MAIN_CLASS + b)
              && (dir != "" ==> HasSetting(r.command, dir))
              && RoleAmong(lower, Words(r.command)) == role
  {
    ContainsIff(r.command, MAIN_CLASS);
    if dir != "" {
      MentionsIff(lower, r.command, dir);
    }
  }

  /** A PID that is not positive is none; without a list nothing can be said of any other; with one, the
      process of that PID decides. */
  lemma MatchInIff(lower: string -> string, running: Option<seq<SystemProcess>>, pid: int, dir: string, role: string)
    requires running.Some? ==> ProcessList(running.value)
    ensures MatchIn(lower, running, pid, dir, role) == MatchFailed <==> pid > 0 && running.None?
    ensures MatchIn(lower, running, pid, dir, role) == Matched <==>
              running.Some? && exists r :: r in running.value && r.pid == pid && IsOf(lower, r, dir, role)
  {
    if running.Some? {
      MatchedIff(lower, running.value, pid, dir, role);
    }
  }
}
