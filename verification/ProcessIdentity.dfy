/** How managed processes are named. */
module ProcessIdentity {
  import opened Text

  /** How letters are lowered, and how the digest of a directory is written. */
  datatype Naming = Naming(lower: string -> string, digest: string -> string)

  // ----- Roles and names -----

  /** The role as it appears in a name; three spellings of the default role do not. */
  function RoleKey(n: Naming, role: string): string {
    var r := n.lower(Trim(role));
    if r == "" || r == "hybrid" || r == "master/worker" then "" else r
  }

  /** The role that a running process is compared with. */
  function MatchRole(n: Naming, role: string): string {
    var r := n.lower(Trim(role));
    if r == "master" || r == "worker" then r else "hybrid"
  }

  function RolePart(n: Naming, role: string): string {
    if RoleKey(n, role) == "" then "" else "-" + RoleKey(n, role)
  }

  function DirPart(n: Naming, installDir: string): string {
    if Trim(installDir) == "" then "" else "@" + n.digest(Trim(installDir))
  }

  function ManagedName(n: Naming, installDir: string, role: string): string {
    "seatunnel" + RolePart(n, role) + DirPart(n, installDir)
  }

  /** Digests are written with the same number of characters. */
  ghost predicate HexDigests(n: Naming) {
    forall dir :: |n.digest(dir)| == 12
  }

  lemma SameTail(a: string, b: string, c: string, d: string)
    requires a + b == c + d && |b| == |d|
    ensures a == c && b == d
  {
    assert (a + b)[..|a|] == a && (a + b)[|a|..] == b;
    assert (c + d)[..|c|] == c && (c + d)[|c|..] == d;
  }

  lemma SameRolePart(n: Naming, role: string, role': string)
    requires RolePart(n, role) == RolePart(n, role')
    ensures RoleKey(n, role) == RoleKey(n, role')
  {
    var k, k' := RoleKey(n, role), RoleKey(n, role');
    if k != "" && k' != "" {
      assert RolePart(n, role)[1..] == k && RolePart(n, role')[1..] == k';
    }
  }

  lemma SameKeySameRole(n: Naming, role: string, role': string)
    requires RoleKey(n, role) == RoleKey(n, role')
    ensures MatchRole(n, role) == MatchRole(n, role')
  {
  }

  /** Case and white space aside, three spellings are one role. */
  predicate IsDefault(r: string) {
    r == "" || r == "hybrid" || r == "master/worker"
  }

  /** Roles count as the same exactly if they are spelled alike, or are both the default one. */
  lemma SameRoleIff(n: Naming, role: string, role': string)
    ensures RoleKey(n, role) == RoleKey(n, role') <==>
              var r, r' := n.lower(Trim(role)), n.lower(Trim(role'));
              r == r' || (IsDefault(r) && IsDefault(r'))
  {
  }

  /** A process is looked for under the role that is spelled out if it is one of the two, and otherwise
      under a third. */
  lemma MatchRoleIff(n: Naming, role: string, known: string)
    requires known == "master" || known == "worker"
    ensures MatchRole(n, role) == known <==> n.lower(Trim(role)) == known
    ensures MatchRole(n, role) in {"master", "worker", "hybrid"}
  {
  }

  /** What a name looks like. */
  lemma NameOfWorker(n: Naming, dir: string)
    requires n.lower("worker") == "worker" && n.lower("") == "" && Trim(dir) != ""
    ensures ManagedName(n, dir, "worker") == "seatunnel-worker@" + n.digest(Trim(dir))
    ensures ManagedName(n, dir, "") == "seatunnel@" + n.digest(Trim(dir))
    ensures ManagedName(n, "", "worker") == "seatunnel-worker" && ManagedName(n, "", "") == "seatunnel"
  {
    TrimOfTrimmed("worker");
    TrimOfTrimmed("");
    assert "seatunnel" + "-worker" == "seatunnel-worker" && "-" + "worker" == "-worker";
    Behind("seatunnel", "-worker", "@" + n.digest(Trim(dir)));
    assert "seatunnel-worker" + ("@" + n.digest(Trim(dir))) == "seatunnel-worker@" + n.digest(Trim(dir));
    assert "seatunnel" + "" == "seatunnel";
    assert "seatunnel" + ("@" + n.digest(Trim(dir))) == "seatunnel@" + n.digest(Trim(dir));
  }

  /** Two processes that both name a directory, or both none, share a name exactly if they are of the
      same role and of directories with the same digest. */
  lemma SameNameIff(n: Naming, dir: string, role: string, dir': string, role': string)
    requires HexDigests(n) && (Trim(dir) == "" <==> Trim(dir') == "")
    ensures ManagedName(n, dir, role) == ManagedName(n, dir', role') <==>
              RoleKey(n, role) == RoleKey(n, role') && (Trim(dir) == "" || n.digest(Trim(dir)) == n.digest(Trim(dir')))
  {
    if ManagedName(n, dir, role) == ManagedName(n, dir', role') {
      SamePrefix(RolePart(n, role), DirPart(n, dir), RolePart(n, role'), DirPart(n, dir'));
      SameTail(RolePart(n, role), DirPart(n, dir), RolePart(n, role'), DirPart(n, dir'));
      SameRolePart(n, role, role');
      if Trim(dir) != "" {
        Unprefixed('@', n.digest(Trim(dir)), n.digest(Trim(dir')));
      }
    }
  }

  lemma Unprefixed(c: char, a: string, b: string)
    requires [c] + a == [c] + b
    ensures a == b
  {
    assert ([c] + a)[1..] == a && ([c] + b)[1..] == b;
  }

  lemma SamePrefix(a: string, b: string, c: string, d: string)
    requires "seatunnel" + a + b == "seatunnel" + c + d
    ensures a + b == c + d
  {
    Behind("seatunnel", a, b);
    Behind("seatunnel", c, d);
  }

  lemma Behind(front: string, a: string, b: string)
    ensures (front + a + b)[|front|..] == a + b
  {
  }

  /** One that names a directory and one that does not share a name exactly if the role of the latter
      spells the role and the digest of the former. */
  lemma SpelledNameIff(n: Naming, dir: string, role: string, dir': string, role': string)
    requires Trim(dir) == "" && Trim(dir') != ""
    ensures ManagedName(n, dir, role) == ManagedName(n, dir', role') <==> SpellsName(n, role, dir', role')
  {
    var tail := "@" + n.digest(Trim(dir'));
    if ManagedName(n, dir, role) == ManagedName(n, dir', role') {
      SamePrefix(RolePart(n, role), "", RolePart(n, role'), tail);
      assert RolePart(n, role) + "" == RolePart(n, role);
      SpelledBack(n, role, dir', role');
    }
    if SpellsName(n, role, dir', role') {
      Regrouped("-", RoleKey(n, role'), "@", n.digest(Trim(dir')));
      assert RolePart(n, role) == RolePart(n, role') + tail;
      Appended("seatunnel", RolePart(n, role'), tail);
    }
  }

  lemma Appended(a: string, b: string, c: string)
    ensures a + (b + c) + "" == a + b + c
  {
  }

  /** A role made of another role and a digest. */
  predicate SpellsName(n: Naming, role: string, dir': string, role': string) {
    RoleKey(n, role') != "" && RoleKey(n, role) == RoleKey(n, role') + "@" + n.digest(Trim(dir'))
  }

  lemma Regrouped(a: string, b: string, c: string, d: string)
    ensures a + (b + c + d) == (a + b) + (c + d)
  {
  }

  lemma SpelledBack(n: Naming, role: string, dir': string, role': string)
    requires RolePart(n, role) == RolePart(n, role') + ("@" + n.digest(Trim(dir')))
    ensures SpellsName(n, role, dir', role')
  {
    var key', d := RoleKey(n, role'), n.digest(Trim(dir'));
    assert RolePart(n, role)[0] == (RolePart(n, role') + ("@" + d))[0];
    assert key' != "" && RoleKey(n, role) != "";
    Regrouped("-", key', "@", d);
    Unprefixed('-', RoleKey(n, role), key' + "@" + d);
  }

  /** Such a role is none that a running process could have but the default one. */
  lemma SpelledRoleIsHybrid(n: Naming, role: string, dir': string, role': string)
    requires SpellsName(n, role, dir', role')
    ensures MatchRole(n, role) == "hybrid"
  {
    var key := RoleKey(n, role);
    assert key[|RoleKey(n, role')|] == '@';
    assert '@' !in "master" && '@' !in "worker";
  }
}
