/** How the list of the system's processes answers for a directory and a role. */
module SystemProcesses {
  import opened Options
  import opened Text

  // ----- Command lines -----

  const MAIN_CLASS := "org.apache.seatunnel." + "core.starter.seatunnel." + "SeaTunnelServer"

  function TrimLeftOf(s: string, cut: set<char>): string {
    if s != "" && s[0] in cut then TrimLeftOf(s[1..], cut) else s
  }

  function TrimRightOf(s: string, cut: set<char>): string {
    if s != "" && s[|s| - 1] in cut then TrimRightOf(s[..|s| - 1], cut) else s
  }

  function TrimQuotes(s: string): string {
    TrimRightOf(TrimLeftOf(s, {'"', '\''}), {'"', '\''})
  }

  /** Backslashes become slashes. */
  function Slashed(s: string): (r: string)
    ensures |r| == |s| && forall i :: 0 <= i < |s| ==> r[i] == if s[i] == '\\' then '/' else s[i]
  {
    seq(|s|, i requires 0 <= i < |s| => if s[i] == '\\' then '/' else s[i])
  }

  /** A trimmed directory without quotes, with slashes, and without slashes at its end. */
  function NormalDir(dir: string): string {
    TrimRightOf(Slashed(TrimQuotes(dir)), {'/'})
  }

  /** What a command line that belongs to a directory has somewhere in it. */
  function Markers(dir: string): seq<string> {
    ["-Dseatunnel.logs.path=" + dir + "/logs",
     "-Dseatunnel.config=" + dir + "/config/",
     "-Dhazelcast.config=" + dir + "/config/",
     "-DSEATUNNEL_HOME=" + dir,
     dir + "/lib/",
     dir + "/starter/"]
  }

  predicate HasDrive(dir: string) {
    |dir| >= 3 && dir[0] as int < 0x80 && dir[1] == ':' && dir[2] == '/'
  }

  /** Below a drive letter upper and lower case are the same. */
  predicate Mentions(lower: string -> string, command: string, dir: string) {
    var d, c := NormalDir(dir), Slashed(command);
    d != "" && exists m :: m in Markers(d) && if HasDrive(d) then Contains(lower(c), lower(m)) else Contains(c, m)
  }

  /** strings.Fields. */
  function Words(s: string): seq<string> {
    if s == "" then []
    else if IsSpace(s[0]) then Words(s[1..])
    else if |s| == 1 || IsSpace(s[1]) then [[s[0]]] + Words(s[1..])
    else
      var rest := Words(s[1..]);
      if rest == [] then [[s[0]]] else [[s[0]] + rest[0]] + rest[1..]
  }

  /** The role that follows the first switch for one, if it is known. */
  function RoleAmong(lower: string -> string, words: seq<string>): string {
    if |words| < 2 then "hybrid"
    else
      var role := lower(TrimQuotes(words[1]));
      if words[0] == "-r" && (role == "master" || role == "worker") then role
      else RoleAmong(lower, words[1..])
  }

  // ----- Processes -----

  datatype Match = Matched | NotMatched | MatchFailed

  datatype SystemProcess = SystemProcess(pid: int, command: string)

  /** The process is a server of the directory, if one is given, and of the role. */
  predicate IsOf(lower: string -> string, r: SystemProcess, dir: string, role: string) {
    && Contains(r.command, MAIN_CLASS)
    && (dir == "" || Mentions(lower, r.command, dir))
    && RoleAmong(lower, Words(r.command)) == role
  }

  /** No list means that the processes could not be listed. */
  function MatchIn(lower: string -> string, running: Option<seq<SystemProcess>>, pid: int, dir: string, role: string)
      : Match {
    if pid <= 0 then NotMatched
    else match running
      case None => MatchFailed
      case Some(rs) => MatchAmong(lower, rs, pid, dir, role)
  }

  function MatchAmong(lower: string -> string, rs: seq<SystemProcess>, pid: int, dir: string, role: string): Match {
    if rs == [] then NotMatched
    else if rs[0].pid == pid then if IsOf(lower, rs[0], dir, role) then Matched else NotMatched
    else MatchAmong(lower, rs[1..], pid, dir, role)
  }

  function FindIn(lower: string -> string, running: Option<seq<SystemProcess>>, dir: string, role: string)
      : Option<int> {
    if running.None? then None else FindAmong(lower, running.value, dir, role)
  }

  function FindAmong(lower: string -> string, rs: seq<SystemProcess>, dir: string, role: string): Option<int> {
    if rs == [] then None
    else if IsOf(lower, rs[0], dir, role) then Some(rs[0].pid)
    else FindAmong(lower, rs[1..], dir, role)
  }

  /** Process lists give each process once, under a positive number. */
  ghost predicate ProcessList(rs: seq<SystemProcess>) {
    && (forall i :: 0 <= i < |rs| ==> rs[i].pid > 0)
    && (forall i, j :: 0 <= i < j < |rs| ==> rs[i].pid != rs[j].pid)
  }

  lemma {:induction false} MatchedIff(lower: string -> string, rs: seq<SystemProcess>, pid: int, dir: string,
                                      role: string)
    requires ProcessList(rs)
    ensures MatchAmong(lower, rs, pid, dir, role) == Matched
       <==> exists r :: r in rs && r.pid == pid && IsOf(lower, r, dir, role)
    ensures !MatchAmong(lower, rs, pid, dir, role).MatchFailed?
  {
    if rs != [] {
      assert rs == [rs[0]] + rs[1..];
      assert forall i :: 0 <= i < |rs| - 1 ==> rs[1..][i] == rs[i + 1];
      MatchedIff(lower, rs[1..], pid, dir, role);
    }
  }

  /** What is found is there, and nothing is found only if nothing is there. */
  lemma {:induction false} FoundIff(lower: string -> string, rs: seq<SystemProcess>, dir: string, role: string)
    requires ProcessList(rs)
    ensures var found := FindAmong(lower, rs, dir, role);
            if found.Some? then
              found.value > 0 && exists r :: r in rs && r.pid == found.value && IsOf(lower, r, dir, role)
            else forall r :: r in rs ==> !IsOf(lower, r, dir, role)
  {
    if rs != [] {
      assert rs == [rs[0]] + rs[1..];
      assert forall i :: 0 <= i < |rs| - 1 ==> rs[1..][i] == rs[i + 1];
      FoundIff(lower, rs[1..], dir, role);
    }
  }
}
