/** Applying the same update twice. The first pass changes which PID the second one tries first, and
    several processes of a list may share a name. */
module Settling {
  import opened Options
  import opened Text
  import opened ProcessIdentity
  import opened SystemProcesses
  import opened Reconcile

  /** The entry of one name after all the processes that carry it, in turn. */
  function EntryAfterAll(h: Host, u: Update, e: Option<Tracked>, procs: seq<Proc>, name: string): Option<Tracked> {
    if procs == [] then e
    else
      var before, p := EntryAfterAll(h, u, e, procs[..|procs| - 1], name), procs[|procs| - 1];
      if NameOf(h, p) == name then EntryAfter(h, u, before, p) else before
  }

  lemma {:induction false} TrackedByName(h: Host, u: Update, t: Table, procs: seq<Proc>, name: string)
    ensures Lookup(TrackedAll(h, u, t, procs), name) == EntryAfterAll(h, u, Lookup(t, name), procs, name)
    ensures name !in Listed(h, procs) ==> EntryAfterAll(h, u, Lookup(t, name), procs, name) == Lookup(t, name)
  {
    if procs != [] {
      var n := |procs| - 1;
      TrackedByName(h, u, t, procs[..n], name);
      ListedOfNext(h, procs, n);
      assert procs[..n + 1] == procs;
    }
  }

  predicate IsAccepted(h: Host, e: Option<Tracked>, p: Proc) {
    e.Some? && Accepts(h, p, e.value.pid)
  }

  /** What a process is resolved to without an entry. */
  function Candidate(h: Host, p: Proc): int {
    Resolved(h, None, p)
  }

  // ----- Processes of a name that inspection does not tell apart -----

  /** Inspection answers alike for processes of the same name. */
  ghost predicate Agreeing(h: Host, procs: seq<Proc>) {
    forall p, q :: p in procs && q in procs && NameOf(h, p) == NameOf(h, q) ==> SameAnswers(h, p, q)
  }

  ghost predicate SameAnswers(h: Host, p: Proc, q: Proc) {
    Discovered(h, p) == Discovered(h, q) && forall pid :: Accepts(h, p, pid) == Accepts(h, q, pid)
  }

  lemma StepAgreeing(h: Host, u: Update, y: Option<Tracked>, p: Proc, q: Proc)
    requires SameAnswers(h, p, q)
    ensures var y' := EntryAfter(h, u, y, q);
            && (IsAccepted(h, y, p) ==> IsAccepted(h, y', p) && y'.value.pid == y.value.pid)
            && (!IsAccepted(h, y', p) ==> !Accepts(h, p, q.pid) && !Accepts(h, p, Discovered(h, p)))
            && (!IsAccepted(h, y, p) && !Accepts(h, p, q.pid) && !Accepts(h, p, Discovered(h, p)) ==>
                  !IsAccepted(h, y', p) && (Discovered(h, p) <= 0 && !u.autoRestart ==> y' == y))
  {
  }

  ghost predicate NoneOffered(h: Host, p: Proc, procs: seq<Proc>) {
    && !Accepts(h, p, Discovered(h, p))
    && forall q :: q in procs && NameOf(h, q) == NameOf(h, p) ==> !Accepts(h, p, q.pid)
  }

  /** An accepted PID stays; and if none is accepted in the end, none was offered. */
  lemma {:induction false} AcceptedStays(h: Host, u: Update, e: Option<Tracked>, procs: seq<Proc>, p: Proc)
    requires Agreeing(h, procs + [p])
    ensures var end := EntryAfterAll(h, u, e, procs, NameOf(h, p));
            && (IsAccepted(h, e, p) ==> IsAccepted(h, end, p) && end.value.pid == e.value.pid)
            && (!IsAccepted(h, end, p) && (exists q :: q in procs && NameOf(h, q) == NameOf(h, p)) ==>
                  NoneOffered(h, p, procs))
  {
    if procs != [] {
      var init, q := procs[..|procs| - 1], procs[|procs| - 1];
      assert procs == init + [q];
      assert q in procs + [p] && p in procs + [p];
      AcceptedStays(h, u, e, init, p);
      if NameOf(h, q) == NameOf(h, p) {
        StepAgreeing(h, u, EntryAfterAll(h, u, e, init, NameOf(h, p)), p, q);
      }
    }
  }

  /** Without an accepted PID every process of the name is resolved by discovery. */
  lemma {:induction false} NeverAccepted(h: Host, u: Update, e: Option<Tracked>, procs: seq<Proc>, p: Proc)
    requires Agreeing(h, procs + [p])
    requires !IsAccepted(h, e, p) && NoneOffered(h, p, procs)
    ensures !IsAccepted(h, EntryAfterAll(h, u, e, procs, NameOf(h, p)), p)
    ensures Discovered(h, p) <= 0 && !u.autoRestart ==> EntryAfterAll(h, u, e, procs, NameOf(h, p)) == e
  {
    if procs != [] {
      var init, q := procs[..|procs| - 1], procs[|procs| - 1];
      assert procs == init + [q];
      assert q in procs + [p] && p in procs + [p];
      NeverAccepted(h, u, e, init, p);
      if NameOf(h, q) == NameOf(h, p) {
        StepAgreeing(h, u, EntryAfterAll(h, u, e, init, NameOf(h, p)), p, q);
      }
    }
  }

  /** Going through the processes of a name again, from where they led, leads there again,
      although the PID found before is now the first candidate and may not even be accepted. */
  lemma EntryIsFixed(h: Host, u: Update, e: Option<Tracked>, procs: seq<Proc>, p: Proc)
    requires Agreeing(h, procs + [p])
    ensures var name := NameOf(h, p);
            var once := EntryAfterAll(h, u, e, procs + [p], name);
            EntryAfterAll(h, u, once, procs + [p], name) == once
  {
    var name, all := NameOf(h, p), procs + [p];
    assert all[..|procs|] == procs;
    var once := EntryAfterAll(h, u, e, all, name);
    AcceptedStays(h, u, once, procs, p);
    AcceptedStays(h, u, e, procs, p);
    assert SameAnswers(h, p, p);
    StepAgreeing(h, u, EntryAfterAll(h, u, e, procs, name), p, p);
    if !IsAccepted(h, once, p) {
      assert NoneOffered(h, p, procs);
      NeverAccepted(h, u, once, procs, p);
    }
  }

  /** Only the last process of a name and those before it matter. */
  lemma {:induction false} FixedByName(h: Host, u: Update, e: Option<Tracked>, procs: seq<Proc>, name: string)
    requires Agreeing(h, procs)
    ensures var once := EntryAfterAll(h, u, e, procs, name);
            EntryAfterAll(h, u, once, procs, name) == once
  {
    if procs != [] {
      var init, p := procs[..|procs| - 1], procs[|procs| - 1];
      assert procs == init + [p];
      if NameOf(h, p) == name {
        EntryIsFixed(h, u, e, init, p);
      } else {
        FixedByName(h, u, e, init, name);
      }
    }
  }

  // ----- Processes of a name that it does -----

  /** What inspection finds it also accepts, and it finds nothing only if it accepts nothing. */
  ghost predicate Consistent(h: Host, p: Proc) {
    if Discovered(h, p) > 0 then Accepts(h, p, Discovered(h, p)) else forall pid :: !Accepts(h, p, pid)
  }

  ghost predicate Below(h: Host, p: Proc, q: Proc) {
    forall pid :: Accepts(h, p, pid) ==> Accepts(h, q, pid)
  }

  ghost predicate Apart(h: Host, p: Proc, q: Proc) {
    forall pid :: !(Accepts(h, p, pid) && Accepts(h, q, pid))
  }

  /** The PIDs accepted for two processes of the same name are nested or disjoint. */
  ghost predicate Nested(h: Host, procs: seq<Proc>) {
    && (forall p :: p in procs ==> Consistent(h, p))
    && (forall p, q :: p in procs && q in procs && NameOf(h, p) == NameOf(h, q) ==>
          Below(h, p, q) || Below(h, q, p) || Apart(h, p, q))
  }

  /** The second pass, which starts at v, still holds v's PID; and where the first one holds that PID
      too, the entries are equal. */
  ghost predicate Untouched(y: Option<Tracked>, z: Option<Tracked>, v: Option<Tracked>) {
    z == v ||
    (z.Some? && v.Some? && z.value.pid == v.value.pid > 0 && (y.Some? && y.value.pid == z.value.pid ==> y == z))
  }

  /** Both passes hold PIDs that p accepts, and v's is none of them. */
  ghost predicate Parted(h: Host, y: Option<Tracked>, z: Option<Tracked>, v: Option<Tracked>, p: Proc) {
    IsAccepted(h, y, p) && IsAccepted(h, z, p) && !IsAccepted(h, v, p)
  }

  /** How two passes over the same processes stand to one another. */
  ghost predicate Together(h: Host, y: Option<Tracked>, z: Option<Tracked>, v: Option<Tracked>, procs: seq<Proc>,
                           name: string) {
    z == y || Untouched(y, z, v) || exists p :: p in procs && NameOf(h, p) == name && Parted(h, y, z, v, p)
  }

  lemma StepUntouched(h: Host, u: Update, y: Option<Tracked>, z: Option<Tracked>, v: Option<Tracked>, p: Proc)
    requires Consistent(h, p) && Untouched(y, z, v)
    ensures var y', z' := EntryAfter(h, u, y, p), EntryAfter(h, u, z, p);
            z' == y' || Untouched(y', z', v) || Parted(h, y', z', v, p)
  {
  }

  lemma StepParted(h: Host, u: Update, y: Option<Tracked>, z: Option<Tracked>, v: Option<Tracked>, p: Proc, q: Proc)
    requires Consistent(h, p) && Parted(h, y, z, v, q)
    requires Below(h, p, q) || Below(h, q, p) || Apart(h, p, q)
    ensures var y', z' := EntryAfter(h, u, y, p), EntryAfter(h, u, z, p);
            z' == y' || Parted(h, y', z', v, p) || Parted(h, y', z', v, q)
  {
  }

  lemma {:induction false} PassesTogether(h: Host, u: Update, e: Option<Tracked>, v: Option<Tracked>,
                                          procs: seq<Proc>, name: string)
    requires Nested(h, procs)
    ensures Together(h, EntryAfterAll(h, u, e, procs, name), EntryAfterAll(h, u, v, procs, name), v, procs, name)
  {
    if procs != [] {
      var init, p := procs[..|procs| - 1], procs[|procs| - 1];
      assert procs == init + [p];
      PassesTogether(h, u, e, v, init, name);
      var y, z := EntryAfterAll(h, u, e, init, name), EntryAfterAll(h, u, v, init, name);
      if NameOf(h, p) == name && z != y {
        assert p in procs;
        if Untouched(y, z, v) {
          StepUntouched(h, u, y, z, v, p);
        } else {
          var q :| q in init && NameOf(h, q) == name && Parted(h, y, z, v, q);
          assert q in procs;
          StepParted(h, u, y, z, v, p, q);
        }
      }
    }
  }

  lemma FixedWhenNested(h: Host, u: Update, e: Option<Tracked>, procs: seq<Proc>, name: string)
    requires Nested(h, procs)
    ensures var once := EntryAfterAll(h, u, e, procs, name);
            EntryAfterAll(h, u, once, procs, name) == once
  {
    PassesTogether(h, u, e, EntryAfterAll(h, u, e, procs, name), procs, name);
  }

  // ----- Whole updates -----

  /** Inspection of the listed processes that lets an update settle. */
  ghost predicate Orderly(h: Host, procs: seq<Proc>) {
    Agreeing(h, procs) || Nested(h, procs)
  }

  /** Applying an update twice is applying it once. */
  lemma ReconcileTwice(h: Host, u: Update, t: Table)
    requires u.procs.Some? ==> Orderly(h, u.procs.value)
    ensures var once := Reconciled(h, u, t); Reconciled(h, u, once) == once
  {
    var once := Reconciled(h, u, t);
    if Reconciles(u) {
      forall name ensures Lookup(Reconciled(h, u, once), name) == Lookup(once, name) {
        var e := Lookup(Pruned(u.clusterID, t, Listed(h, u.procs.value)), name);
        TwiceByName(h, u, t, name);
        if Agreeing(h, u.procs.value) {
          FixedByName(h, u, e, u.procs.value, name);
        } else {
          FixedWhenNested(h, u, e, u.procs.value, name);
        }
      }
      SameLookupsSameTable(Reconciled(h, u, once), once);
    }
  }

  /** Two updates in turn, name by name. */
  lemma TwiceByName(h: Host, u: Update, t: Table, name: string)
    requires Reconciles(u)
    ensures var procs := u.procs.value;
            var once := EntryAfterAll(h, u, Lookup(Pruned(u.clusterID, t, Listed(h, procs)), name), procs, name);
            && Lookup(Reconciled(h, u, t), name) == once
            && Lookup(Reconciled(h, u, Reconciled(h, u, t)), name) == EntryAfterAll(h, u, once, procs, name)
  {
    var procs, c := u.procs.value, u.clusterID;
    var keep := Listed(h, procs);
    TrackedByName(h, u, Pruned(c, t, keep), procs, name);
    TrackedByName(h, u, Pruned(c, Reconciled(h, u, t), keep), procs, name);
  }

  // ----- Two processes under one name -----

  /** The first process keeps a tracked PID that the second does not accept; the second has an entry
      of its own instead; that is not accepted by the first, whose own candidate the second takes. */
  predicate Unsettled(h: Host, u: Update, e: Option<Tracked>, a: Proc, b: Proc) {
    && IsAccepted(h, e, a) && !IsAccepted(h, e, b)
    && (Candidate(h, b) > 0 || u.autoRestart) && !Accepts(h, a, Candidate(h, b))
    && Accepts(h, b, Candidate(h, a)) && Candidate(h, a) != Candidate(h, b)
  }

  /** For a list of two processes under one name: exactly when the update settles. */
  lemma PairSettlesIff(h: Host, u: Update, t: Table, a: Proc, b: Proc)
    requires Reconciles(u) && u.procs.value == [a, b] && NameOf(h, a) == NameOf(h, b)
    ensures var once := Reconciled(h, u, t);
            Reconciled(h, u, once) == once <==> !Unsettled(h, u, Lookup(t, NameOf(h, a)), a, b)
  {
    var name, once := NameOf(h, a), Reconciled(h, u, t);
    var e := Lookup(t, name);
    assert u.procs.value[0] == a && name in Listed(h, u.procs.value);
    assert Lookup(Pruned(u.clusterID, t, Listed(h, u.procs.value)), name) == e;
    TwiceByName(h, u, t, name);
    PassOfTwo(h, u, e, a, b);
    PassOfTwo(h, u, EntryAfter(h, u, EntryAfter(h, u, e, a), b), a, b);
    PairIsFixedIff(h, u, e, a, b);
    if !Unsettled(h, u, e, a, b) {
      forall other ensures Lookup(Reconciled(h, u, once), other) == Lookup(once, other) {
        if other != name {
          TwiceByName(h, u, t, other);
          NothingForOthers(h, u, a, b, other);
        }
      }
      SameLookupsSameTable(Reconciled(h, u, once), once);
    }
  }

  lemma PairIsFixedIff(h: Host, u: Update, e: Option<Tracked>, a: Proc, b: Proc)
    ensures var once := EntryAfter(h, u, EntryAfter(h, u, e, a), b);
            EntryAfter(h, u, EntryAfter(h, u, once, a), b) == once <==> !Unsettled(h, u, e, a, b)
  {
  }

  lemma PassOfTwo(h: Host, u: Update, e: Option<Tracked>, a: Proc, b: Proc)
    requires NameOf(h, a) == NameOf(h, b)
    ensures EntryAfterAll(h, u, e, [a, b], NameOf(h, a)) == EntryAfter(h, u, EntryAfter(h, u, e, a), b)
  {
    assert [a, b][..1] == [a] && [a][..0] == [];
    assert EntryAfterAll(h, u, e, [a], NameOf(h, a)) == EntryAfter(h, u, e, a);
  }

  lemma NothingForOthers(h: Host, u: Update, a: Proc, b: Proc, name: string)
    requires NameOf(h, a) != name && NameOf(h, b) != name
    ensures forall e :: EntryAfterAll(h, u, e, [a, b], name) == e
  {
    assert [a, b][..1] == [a] && [a][..0] == [];
    forall e ensures EntryAfterAll(h, u, e, [a, b], name) == e {
      assert EntryAfterAll(h, u, e, [a], name) == e;
    }
  }

  // ----- Hosts that answer from a list of processes -----

  /** The host as it is: names are made of role and directory, and inspection looks at one list of
      processes, or fails to get it. */
  function HostOf(n: Naming, running: Option<seq<SystemProcess>>, normalizeHome: string -> string): Host {
    Host((dir, role) => ManagedName(n, dir, role),
         (pid, dir, role) => MatchIn(n.lower, running, pid, Trim(dir), MatchRole(n, role)),
         (dir, role) => FindIn(n.lower, running, Trim(dir), MatchRole(n, role)),
         normalizeHome)
  }

  /** Digests are of one length, and lists of processes what they are. */
  ghost predicate RealHost(h: Host, n: Naming, running: Option<seq<SystemProcess>>) {
    && HexDigests(n)
    && (running.Some? ==> ProcessList(running.value))
    && h == HostOf(n, running, h.normalizeHome)
  }

  /** No two of the listed directories have the same digest. */
  ghost predicate NoCollision(n: Naming, procs: seq<Proc>) {
    forall p, q :: p in procs && q in procs && Trim(p.installDir) != "" && Trim(q.installDir) != "" &&
                   n.digest(Trim(p.installDir)) == n.digest(Trim(q.installDir)) ==>
      Trim(p.installDir) == Trim(q.installDir)
  }

  ghost predicate Runs(n: Naming, rs: seq<SystemProcess>, pid: int, p: Proc) {
    exists r :: r in rs && r.pid == pid && IsOf(n.lower, r, Trim(p.installDir), MatchRole(n, p.role))
  }

  lemma AcceptsIff(h: Host, n: Naming, rs: seq<SystemProcess>, p: Proc, pid: int)
    requires RealHost(h, n, Some(rs))
    ensures Accepts(h, p, pid) <==> Runs(n, rs, pid, p)
  {
    MatchedIff(n.lower, rs, pid, Trim(p.installDir), MatchRole(n, p.role));
  }

  lemma ListIsConsistent(h: Host, n: Naming, rs: seq<SystemProcess>, p: Proc)
    requires RealHost(h, n, Some(rs))
    ensures Consistent(h, p)
  {
    FoundIff(n.lower, rs, Trim(p.installDir), MatchRole(n, p.role));
    if Discovered(h, p) > 0 {
      AcceptsIff(h, n, rs, p, Discovered(h, p));
    } else {
      forall pid ensures !Accepts(h, p, pid) {
        AcceptsIff(h, n, rs, p, pid);
      }
    }
  }

  /** What two processes of one name can be: of the same role and directory, or one of them names no
      directory and is of the default role. */
  lemma SameNameMeans(h: Host, n: Naming, running: Option<seq<SystemProcess>>, p: Proc, q: Proc)
    requires RealHost(h, n, running) && NoCollision(n, [p, q]) && NameOf(h, p) == NameOf(h, q)
    ensures var d, d', r, r' := Trim(p.installDir), Trim(q.installDir), MatchRole(n, p.role), MatchRole(n, q.role);
            (d == d' && r == r') || (d == "" && r == "hybrid") || (d' == "" && r' == "hybrid")
  {
    assert p in [p, q] && q in [p, q];
    if Trim(p.installDir) == "" <==> Trim(q.installDir) == "" {
      SameNameIff(n, p.installDir, p.role, q.installDir, q.role);
      SameKeySameRole(n, p.role, q.role);
    } else if Trim(p.installDir) == "" {
      SpelledNameIff(n, p.installDir, p.role, q.installDir, q.role);
      SpelledRoleIsHybrid(n, p.role, q.installDir, q.role);
    } else {
      SpelledNameIff(n, q.installDir, q.role, p.installDir, p.role);
      SpelledRoleIsHybrid(n, q.role, p.installDir, p.role);
    }
  }

  lemma NestedByName(h: Host, n: Naming, rs: seq<SystemProcess>, p: Proc, q: Proc)
    requires RealHost(h, n, Some(rs)) && NoCollision(n, [p, q]) && NameOf(h, p) == NameOf(h, q)
    ensures Below(h, p, q) || Below(h, q, p) || Apart(h, p, q)
  {
    SameNameMeans(h, n, Some(rs), p, q);
    forall pid ensures (Accepts(h, p, pid) <==> Runs(n, rs, pid, p)) && (Accepts(h, q, pid) <==> Runs(n, rs, pid, q)) {
      AcceptsIff(h, n, rs, p, pid);
      AcceptsIff(h, n, rs, q, pid);
    }
    RunsNested(n, rs, p, q);
  }

  lemma RunsNested(n: Naming, rs: seq<SystemProcess>, p: Proc, q: Proc)
    requires ProcessList(rs)
    requires var d, d', r, r' := Trim(p.installDir), Trim(q.installDir), MatchRole(n, p.role), MatchRole(n, q.role);
             (d == d' && r == r') || (d == "" && r == "hybrid") || (d' == "" && r' == "hybrid")
    ensures || (forall pid :: Runs(n, rs, pid, p) ==> Runs(n, rs, pid, q))
            || (forall pid :: Runs(n, rs, pid, q) ==> Runs(n, rs, pid, p))
            || (forall pid :: !(Runs(n, rs, pid, p) && Runs(n, rs, pid, q)))
  {
    if MatchRole(n, p.role) != MatchRole(n, q.role) {
      forall pid ensures !(Runs(n, rs, pid, p) && Runs(n, rs, pid, q)) {
      }
    }
  }

  lemma ListIsOrderly(h: Host, n: Naming, running: Option<seq<SystemProcess>>, procs: seq<Proc>)
    requires RealHost(h, n, running) && NoCollision(n, procs)
    ensures Orderly(h, procs)
  {
    if running.None? {
      forall p, q | p in procs && q in procs && NameOf(h, p) == NameOf(h, q) ensures SameAnswers(h, p, q) {
      }
    } else {
      forall p | p in procs ensures Consistent(h, p) {
        ListIsConsistent(h, n, running.value, p);
      }
      forall p, q | p in procs && q in procs && NameOf(h, p) == NameOf(h, q)
        ensures Below(h, p, q) || Below(h, q, p) || Apart(h, p, q)
      {
        NestedByName(h, n, running.value, p, q);
      }
      assert Nested(h, procs);
    }
  }

  /** On a host that answers from one list of processes every update settles, whatever roles and
      directories are listed, also if the list cannot be had, unless two directories collide. */
  lemma ListedUpdateSettles(h: Host, n: Naming, running: Option<seq<SystemProcess>>, u: Update, t: Table)
    requires RealHost(h, n, running) && (u.procs.Some? ==> NoCollision(n, u.procs.value))
    ensures var once := Reconciled(h, u, t); Reconciled(h, u, once) == once
  {
    if u.procs.Some? {
      ListIsOrderly(h, n, running, u.procs.value);
    }
    ReconcileTwice(h, u, t);
  }
}
