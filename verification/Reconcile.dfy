/** Reconciliation of the monitored processes with the list the Control Plane sends.

    The list is scoped to a cluster. Entries of that cluster that the list no longer names are
    dropped; each listed process is tracked under the PID that can be verified for it. Process
    inspection is two oracles that may fail; they answer alike throughout an update. */
module Reconcile {
  import opened Options
  import opened Text
  import opened SystemProcesses

  datatype StartParams = StartParams(installDir: string, role: string, javaHome: string)

  datatype Status = Running | Stopped

  /** An entry of the monitor's table, without the time of the last check. */
  datatype Tracked = Tracked(
    pid: int, clusterID: string, installDir: string, role: string, status: Status,
    manuallyStopped: bool, restarting: bool, consecutiveFails: nat, startParams: StartParams,
    originCommandID: string, originRequestID: string, manualFollowup: bool)

  type Table = map<string, Tracked>

  /** One process of the list. */
  datatype Proc = Proc(pid: int, clusterID: nat, installDir: string, role: string, javaHome: string)

  /** How processes are named, whether a PID is a process of a directory and role, and which
      process of a directory and role is found, if any. */
  datatype Host = Host(
    managedName: (string, string) -> string,
    match_: (int, string, string) -> Match,
    find: (string, string) -> Option<int>,
    normalizeHome: string -> string)

  /** The parameters of an update command. */
  datatype Update = Update(clusterID: string, autoMonitor: bool, autoRestart: bool, procs: Option<seq<Proc>>)

  function NameOf(h: Host, p: Proc): string { h.managedName(p.installDir, p.role) }

  // ----- Resolution of PIDs -----

  /** Inspection that fails keeps the candidate. */
  predicate Accepts(h: Host, p: Proc, pid: int) {
    pid > 0 && !h.match_(pid, p.installDir, p.role).NotMatched?
  }

  function Discovered(h: Host, p: Proc): int {
    var found := h.find(p.installDir, p.role);
    if found.Some? then found.value else 0
  }

  /** The PID already tracked if it is accepted, else the one of the list, else what is found. */
  function Resolved(h: Host, existing: Option<Tracked>, p: Proc): int {
    if existing.Some? && Accepts(h, p, existing.value.pid) then existing.value.pid
    else if Accepts(h, p, p.pid) then p.pid
    else Discovered(h, p)
  }

  function Lookup(t: Table, name: string): Option<Tracked> {
    if name in t then Some(t[name]) else None
  }

  // ----- The table after an update -----

  predicate Scoped(clusterID: string) {
    clusterID != "" && clusterID != "0"
  }

  predicate OutOfScope(clusterID: string, e: Tracked) {
    Scoped(clusterID) && e.clusterID != clusterID
  }

  function ClusterOf(clusterID: string, p: Proc): string {
    if p.clusterID > 0 then Decimal(p.clusterID) else clusterID
  }

  function FreshEntry(h: Host, clusterID: string, p: Proc, pid: int): Tracked {
    Tracked(pid, ClusterOf(clusterID, p), p.installDir, p.role, Running, false, false, 0,
            StartParams(p.installDir, p.role, h.normalizeHome(p.javaHome)), "", "", false)
  }

  function Listed(h: Host, procs: seq<Proc>): set<string> {
    set i | 0 <= i < |procs| :: NameOf(h, procs[i])
  }

  function Pruned(clusterID: string, t: Table, keep: set<string>): Table {
    map name | name in t && (name in keep || OutOfScope(clusterID, t[name])) :: t[name]
  }

  /** The entry of a listed process, from the entry there was. */
  function EntryAfter(h: Host, u: Update, existing: Option<Tracked>, p: Proc): Option<Tracked> {
    var pid := Resolved(h, existing, p);
    if pid > 0 then Some(FreshEntry(h, u.clusterID, p, pid))
    else if u.autoRestart then Some(FreshEntry(h, u.clusterID, p, 0))
    else existing
  }

  function Put(t: Table, name: string, e: Option<Tracked>): Table {
    if e.Some? then t[name := e.value] else t
  }

  function TrackedAll(h: Host, u: Update, t: Table, procs: seq<Proc>): Table {
    if procs == [] then t
    else
      var before, p := TrackedAll(h, u, t, procs[..|procs| - 1]), procs[|procs| - 1];
      Put(before, NameOf(h, p), EntryAfter(h, u, Lookup(before, NameOf(h, p)), p))
  }

  function Reconciled(h: Host, u: Update, t: Table): Table {
    if !u.autoMonitor then Pruned(u.clusterID, t, {})
    else if u.procs.None? then t
    else TrackedAll(h, u, Pruned(u.clusterID, t, Listed(h, u.procs.value)), u.procs.value)
  }

  // ----- The handler -----

  class Agent {
    var table: Table
    const host: Host

    method TrackProcessSilent(name: string, pid: int, installDir: string, role: string, params: StartParams)
      modifies this`table
      ensures table == old(table)[name :=
        Tracked(pid, "", installDir, role, Running, false, false, 0, params, "", "", false)]
    {
      table := table[name := Tracked(pid, "", installDir, role, Running, false, false, 0, params, "", "", false)];
    }

    method SetProcessClusterID(name: string, clusterID: string)
      modifies this`table
      ensures table == if name in old(table) then old(table)[name := old(table)[name].(clusterID := clusterID)]
                       else old(table)
    {
      if name in table {
        table := table[name := table[name].(clusterID := clusterID)];
      }
    }

    method UntrackProcessSilent(name: string)
      modifies this`table
      ensures table == old(table) - {name}
    {
      table := table - {name};
    }

    /** Tries the candidates in turn; the list of the Control Plane gives at most one more. */
    method ResolvePID(name: string, p: Proc) returns (pid: int)
      ensures pid == Resolved(host, Lookup(table, name), p)
    {
      var candidates := [];
      if name in table && table[name].pid > 0 {
        candidates := [table[name].pid];
      }
      if p.pid > 0 && (|candidates| == 0 || candidates[0] != p.pid) {
        candidates := candidates + [p.pid];
      }
      for i := 0 to |candidates|
        invariant forall k :: 0 <= k < i ==> !Accepts(host, p, candidates[k])
      {
        pid := candidates[i];
        match host.match_(pid, p.installDir, p.role)
        case MatchFailed => return;
        case Matched => return;
        case NotMatched =>
      }
      if name in table && table[name].pid > 0 {
        assert !Accepts(host, p, candidates[0]);
      }
      if p.pid > 0 {
        assert !Accepts(host, p, candidates[|candidates| - 1]) && !Accepts(host, p, candidates[0]);
      }
      var found := host.find(p.installDir, p.role);
      return if found.Some? then found.value else 0;
    }

    /** Untracks the entries in scope whose names are not to be kept, in any order. */
    method UntrackStale(clusterID: string, keep: set<string>)
      modifies this`table
      ensures table == Pruned(clusterID, old(table), keep)
    {
      var todo := table.Keys;
      while todo != {}
        invariant todo <= old(table).Keys
        invariant table == map name |
                             && name in old(table)
                             && (name in todo || name in keep || OutOfScope(clusterID, old(table)[name]))
                             :: old(table)[name]
        decreases |todo|
      {
        var name :| name in todo;
        var existing := table[name];
        todo := todo - {name};
        if clusterID != "" && clusterID != "0" && existing.clusterID != clusterID {
          continue;
        }
        if name in keep {
          continue;
        }
        UntrackProcessSilent(name);
      }
    }

    method HandleUpdateMonitorConfig(u: Update)
      modifies this`table
      ensures table == Reconciled(host, u, old(table))
    {
      if !u.autoMonitor {
        UntrackStale(u.clusterID, {});
        return;
      }
      if u.procs.None? {
        return;
      }
      var procs := u.procs.value;
      var expected: set<string> := {};
      for i := 0 to |procs|
        invariant table == old(table) && expected == Listed(host, procs[..i])
      {
        ListedOfNext(host, procs, i);
        expected := expected + {NameOf(host, procs[i])};
      }
      assert procs[..|procs|] == procs;
      UntrackStale(u.clusterID, expected);
      TrackListed(u, procs);
    }

    method TrackListed(u: Update, procs: seq<Proc>)
      modifies this`table
      ensures table == TrackedAll(host, u, old(table), procs)
    {
      for i := 0 to |procs|
        invariant table == TrackedAll(host, u, old(table), procs[..i])
      {
        assert procs[..i + 1][..i] == procs[..i];
        TrackOne(u, procs[i]);
      }
      assert procs[..|procs|] == procs;
    }

    method TrackOne(u: Update, p: Proc)
      modifies this`table
      ensures var name := NameOf(host, p);
              table == Put(old(table), name, EntryAfter(host, u, Lookup(old(table), name), p))
    {
      var name := NameOf(host, p);
      var clusterID := "";
      if p.clusterID > 0 {
        clusterID := Decimal(p.clusterID);
      }
      if clusterID == "" {
        clusterID := u.clusterID;
      }
      var pid := ResolvePID(name, p);
      var params := StartParams(p.installDir, p.role, host.normalizeHome(p.javaHome));
      if pid > 0 {
        TrackProcessSilent(name, pid, p.installDir, p.role, params);
        SetProcessClusterID(name, clusterID);
      } else if u.autoRestart {
        TrackProcessSilent(name, 0, p.installDir, p.role, params);
        SetProcessClusterID(name, clusterID);
      }
    }
  }

  lemma ListedOfNext(h: Host, procs: seq<Proc>, i: nat)
    requires i < |procs|
    ensures Listed(h, procs[..i + 1]) == Listed(h, procs[..i]) + {NameOf(h, procs[i])}
  {
    var next := procs[..i + 1];
    assert next[i] == procs[i];
    forall name | name in Listed(h, procs[..i]) ensures name in Listed(h, next) {
      var k :| 0 <= k < i && NameOf(h, procs[..i][k]) == name;
      assert NameOf(h, next[k]) == name;
    }
    forall name | name in Listed(h, next) ensures name in Listed(h, procs[..i]) + {NameOf(h, procs[i])} {
      var k :| 0 <= k <= i && NameOf(h, next[k]) == name;
      if k < i { assert NameOf(h, procs[..i][k]) == name; }
    }
  }

  // ----- The table, name by name -----

  ghost predicate DistinctNames(h: Host, procs: seq<Proc>) {
    forall i, j :: 0 <= i < j < |procs| ==> NameOf(h, procs[i]) != NameOf(h, procs[j])
  }

  lemma SameLookupsSameTable(a: Table, b: Table)
    requires forall name :: Lookup(a, name) == Lookup(b, name)
    ensures a == b
  {
    forall name ensures name in a <==> name in b {
      assert Lookup(a, name) == Lookup(b, name);
    }
    forall name | name in a ensures a[name] == b[name] {
      assert Lookup(a, name) == Lookup(b, name);
    }
  }

  lemma {:induction false} TrackedElsewhere(h: Host, u: Update, t: Table, procs: seq<Proc>, name: string)
    requires name !in Listed(h, procs)
    ensures Lookup(TrackedAll(h, u, t, procs), name) == Lookup(t, name)
  {
    if procs != [] {
      var n := |procs| - 1;
      ListedOfNext(h, procs, n);
      assert procs[..n + 1] == procs;
      TrackedElsewhere(h, u, t, procs[..n], name);
    }
  }

  lemma {:induction false} TrackedAt(h: Host, u: Update, t: Table, procs: seq<Proc>, p: Proc)
    requires DistinctNames(h, procs) && p in procs
    ensures var name := NameOf(h, p);
            Lookup(TrackedAll(h, u, t, procs), name) == EntryAfter(h, u, Lookup(t, name), p)
  {
    var n := |procs| - 1;
    var init := procs[..n];
    assert procs == init + [procs[n]];
    if p == procs[n] {
      TrackedElsewhere(h, u, t, init, NameOf(h, p));
    } else {
      TrackedAt(h, u, t, init, p);
      var i :| 0 <= i < n && procs[i] == p;
      assert NameOf(h, procs[i]) != NameOf(h, procs[n]);
    }
  }

  function InOtherCluster(clusterID: string, e: Option<Tracked>): Option<Tracked> {
    if e.Some? && OutOfScope(clusterID, e.value) then e else None
  }

  lemma ListedIff(h: Host, procs: seq<Proc>, name: string)
    ensures name in Listed(h, procs) <==> exists p :: p in procs && NameOf(h, p) == name
  {
    if name in Listed(h, procs) {
      var i :| 0 <= i < |procs| && NameOf(h, procs[i]) == name;
      assert procs[i] in procs;
    }
    if p :| p in procs && NameOf(h, p) == name {
      var i :| 0 <= i < |procs| && procs[i] == p;
      assert NameOf(h, procs[i]) == name;
    }
  }

  ghost predicate Reconciles(u: Update) {
    u.autoMonitor && u.procs.Some?
  }

  /** The one table an update reaches: an unlisted name survives, unchanged, iff it belongs to
      another cluster (none does when the update names no cluster); a listed name holds its
      resolved PID, or PID 0 if there is none and auto-restart is on, or else what it held. */
  lemma ReconciledAt(h: Host, u: Update, t: Table, name: string)
    requires Reconciles(u) && DistinctNames(h, u.procs.value)
    ensures name !in Listed(h, u.procs.value) ==>
              Lookup(Reconciled(h, u, t), name) == InOtherCluster(u.clusterID, Lookup(t, name))
    ensures forall p :: p in u.procs.value && NameOf(h, p) == name ==>
              Lookup(Reconciled(h, u, t), name) == EntryAfter(h, u, Lookup(t, name), p)
  {
    var procs := u.procs.value;
    var pruned := Pruned(u.clusterID, t, Listed(h, procs));
    ListedIff(h, procs, name);
    if name !in Listed(h, procs) {
      TrackedElsewhere(h, u, pruned, procs, name);
    }
    forall p | p in procs && NameOf(h, p) == name
      ensures Lookup(Reconciled(h, u, t), name) == EntryAfter(h, u, Lookup(t, name), p)
    {
      TrackedAt(h, u, pruned, procs, p);
    }
  }

  /** Which entries survive without being listed: of an update that names a cluster, those of the
      others. With auto-monitoring off no list counts; */
  lemma UnlistedSurvivesIff(h: Host, u: Update, t: Table, name: string)
    requires !u.autoMonitor || (Reconciles(u) && DistinctNames(h, u.procs.value) && name !in Listed(h, u.procs.value))
    ensures Lookup(Reconciled(h, u, t), name)
         == if name in t && u.clusterID != "" && u.clusterID != "0" && t[name].clusterID != u.clusterID
            then Some(t[name]) else None
  {
    if u.autoMonitor {
      ReconciledAt(h, u, t, name);
    }
  }

  /** with it on, an update without a list changes nothing. */
  lemma NoListNoChange(h: Host, u: Update, t: Table)
    requires u.autoMonitor && u.procs.None?
    ensures Reconciled(h, u, t) == t
  {
  }

  /** A listed name, by its process. */
  lemma ListedAt(h: Host, u: Update, t: Table, p: Proc)
    requires Reconciles(u) && DistinctNames(h, u.procs.value) && p in u.procs.value
    ensures var name := NameOf(h, p);
            var pid := Resolved(h, Lookup(t, name), p);
            var e := Lookup(Reconciled(h, u, t), name);
            if pid > 0 || u.autoRestart then e.Some? && IsFresh(h, u, p, if pid > 0 then pid else 0, e.value)
            else e == Lookup(t, name)
  {
    ReconciledAt(h, u, t, NameOf(h, p));
    EntryMeaning(h, u, Lookup(t, NameOf(h, p)), p);
  }

  /** The entry of a process that is tracked anew. */
  ghost predicate IsFresh(h: Host, u: Update, p: Proc, pid: int, e: Tracked) {
    && e.pid == pid && e.status == Running
    && e.installDir == p.installDir && e.role == p.role
    && e.startParams.installDir == p.installDir && e.startParams.role == p.role
    && e.startParams.javaHome == h.normalizeHome(p.javaHome)
    && (p.clusterID > 0 ==> e.clusterID == Decimal(p.clusterID))
    && (p.clusterID == 0 ==> e.clusterID == u.clusterID)
    && !e.manuallyStopped && !e.restarting && !e.manualFollowup && e.consecutiveFails == 0
    && e.originCommandID == "" && e.originRequestID == ""
  }

  /** What EntryAfter gives, spelled out. */
  lemma EntryMeaning(h: Host, u: Update, existing: Option<Tracked>, p: Proc)
    ensures var e := EntryAfter(h, u, existing, p);
            var pid := Resolved(h, existing, p);
            if pid > 0 || u.autoRestart then e.Some? && IsFresh(h, u, p, if pid > 0 then pid else 0, e.value)
            else e == existing
  {
  }

  /** The order in which a PID is looked for: the one tracked is kept if it is positive and its
      inspection accepts it or fails, */
  lemma TrackedPidIsKept(h: Host, existing: Option<Tracked>, p: Proc)
    requires existing.Some? && existing.value.pid > 0
    requires h.match_(existing.value.pid, p.installDir, p.role) != NotMatched
    ensures Resolved(h, existing, p) == existing.value.pid
  {
  }

  /** next comes the one of the list, on the same terms, and then what is found. */
  lemma OtherwiseResolved(h: Host, existing: Option<Tracked>, p: Proc)
    requires existing.Some? && existing.value.pid > 0 ==>
               h.match_(existing.value.pid, p.installDir, p.role) == NotMatched
    ensures Resolved(h, existing, p)
         == if p.pid > 0 && h.match_(p.pid, p.installDir, p.role) != NotMatched then p.pid
            else match h.find(p.installDir, p.role) case Some(pid) => pid case None => 0
  {
  }

  // ----- Laws -----

  /** The order of the list does not matter. */
  lemma OrderDoesNotMatter(h: Host, u: Update, u': Update, t: Table)
    requires Reconciles(u) && DistinctNames(h, u.procs.value)
    requires Reconciles(u') && DistinctNames(h, u'.procs.value)
    requires u' == u.(procs := u'.procs)
    requires forall p :: p in u.procs.value <==> p in u'.procs.value
    ensures Reconciled(h, u, t) == Reconciled(h, u', t)
  {
    forall name ensures Lookup(Reconciled(h, u, t), name) == Lookup(Reconciled(h, u', t), name) {
      ReconciledAt(h, u, t, name);
      ReconciledAt(h, u', t, name);
      ListedIff(h, u.procs.value, name);
      ListedIff(h, u'.procs.value, name);
    }
    SameLookupsSameTable(Reconciled(h, u, t), Reconciled(h, u', t));
  }

  // ----- Updates for two clusters -----

  function PositivePID(h: Host, e: Option<Tracked>, p: Proc): int {
    var pid := Resolved(h, e, p);
    if pid > 0 then pid else 0
  }

  /** Whether an update for another cluster leaves the entry of a listed process alone, before
      and after. If the process is listed under that other cluster, it must not get tracked; if
      it is tracked under that other cluster now, its PID must be found without that entry. */
  predicate Independent(h: Host, u: Update, other: string, e: Option<Tracked>, p: Proc) {
    var foreign := e.Some? && e.value.clusterID == other;
    if ClusterOf(u.clusterID, p) == other then
      PositivePID(h, if foreign then None else e, p) == 0 && !u.autoRestart
    else
      foreign ==> PositivePID(h, e, p) == PositivePID(h, None, p)
  }

  lemma IndependentIff(h: Host, u: Update, other: string, e: Option<Tracked>, p: Proc)
    requires Scoped(other)
    ensures InOtherCluster(other, EntryAfter(h, u, e, p)) == EntryAfter(h, u, InOtherCluster(other, e), p)
            <==> Independent(h, u, other, e, p)
  {
  }

  ghost predicate AllIndependent(h: Host, u: Update, other: string, t: Table)
    requires u.procs.Some?
  {
    forall p :: p in u.procs.value ==> Independent(h, u, other, Lookup(t, NameOf(h, p)), p)
  }

  /** Updates for two clusters that list different names commute exactly when every process of
      each list is independent of the other list's cluster. */
  lemma UpdatesCommuteIff(h: Host, u: Update, v: Update, t: Table)
    requires Reconciles(u) && Scoped(u.clusterID) && DistinctNames(h, u.procs.value)
    requires Reconciles(v) && Scoped(v.clusterID) && DistinctNames(h, v.procs.value)
    requires Listed(h, u.procs.value) !! Listed(h, v.procs.value)
    ensures Reconciled(h, v, Reconciled(h, u, t)) == Reconciled(h, u, Reconciled(h, v, t)) <==>
            AllIndependent(h, u, v.clusterID, t) && AllIndependent(h, v, u.clusterID, t)
  {
    var uv, vu := Reconciled(h, v, Reconciled(h, u, t)), Reconciled(h, u, Reconciled(h, v, t));
    forall p | p in u.procs.value
      ensures Lookup(uv, NameOf(h, p)) == Lookup(vu, NameOf(h, p)) <==>
              Independent(h, u, v.clusterID, Lookup(t, NameOf(h, p)), p)
    {
      BothOrdersAt(h, u, v, t, p);
    }
    forall p | p in v.procs.value
      ensures Lookup(uv, NameOf(h, p)) == Lookup(vu, NameOf(h, p)) <==>
              Independent(h, v, u.clusterID, Lookup(t, NameOf(h, p)), p)
    {
      BothOrdersAt(h, v, u, t, p);
    }
    if AllIndependent(h, u, v.clusterID, t) && AllIndependent(h, v, u.clusterID, t) {
      forall name ensures Lookup(uv, name) == Lookup(vu, name) {
        ListedIff(h, u.procs.value, name);
        ListedIff(h, v.procs.value, name);
        if name !in Listed(h, u.procs.value) && name !in Listed(h, v.procs.value) {
          ReconciledAt(h, u, t, name);
          ReconciledAt(h, v, t, name);
          ReconciledAt(h, u, Reconciled(h, v, t), name);
          ReconciledAt(h, v, Reconciled(h, u, t), name);
        }
      }
      SameLookupsSameTable(uv, vu);
    }
  }

  lemma BothOrdersAt(h: Host, u: Update, v: Update, t: Table, p: Proc)
    requires Reconciles(u) && DistinctNames(h, u.procs.value) && p in u.procs.value
    requires Reconciles(v) && DistinctNames(h, v.procs.value) && Scoped(v.clusterID)
    requires Listed(h, u.procs.value) !! Listed(h, v.procs.value)
    ensures var name := NameOf(h, p);
            Lookup(Reconciled(h, v, Reconciled(h, u, t)), name) == Lookup(Reconciled(h, u, Reconciled(h, v, t)), name)
            <==> Independent(h, u, v.clusterID, Lookup(t, name), p)
  {
    var name := NameOf(h, p);
    ListedIff(h, u.procs.value, name);
    assert name !in Listed(h, v.procs.value);
    ReconciledAt(h, u, t, name);
    ReconciledAt(h, v, t, name);
    ReconciledAt(h, u, Reconciled(h, v, t), name);
    ReconciledAt(h, v, Reconciled(h, u, t), name);
    IndependentIff(h, u, v.clusterID, Lookup(t, name), p);
  }

  /** A list that speaks of its own cluster only. */
  ghost predicate OwnCluster(h: Host, u: Update, t: Table)
    requires u.procs.Some?
  {
    forall p :: p in u.procs.value ==>
      && ClusterOf(u.clusterID, p) == u.clusterID
      && (NameOf(h, p) in t ==> t[NameOf(h, p)].clusterID == u.clusterID)
  }

  /** In particular, lists whose processes, and whatever is tracked under their names, belong to
      the list's own cluster. */
  lemma UpdatesOfOwnClustersCommute(h: Host, u: Update, v: Update, t: Table)
    requires Reconciles(u) && Scoped(u.clusterID) && DistinctNames(h, u.procs.value) && OwnCluster(h, u, t)
    requires Reconciles(v) && Scoped(v.clusterID) && DistinctNames(h, v.procs.value) && OwnCluster(h, v, t)
    requires u.clusterID != v.clusterID && Listed(h, u.procs.value) !! Listed(h, v.procs.value)
    ensures Reconciled(h, v, Reconciled(h, u, t)) == Reconciled(h, u, Reconciled(h, v, t))
  {
    UpdatesCommuteIff(h, u, v, t);
  }

  /** Owning the tracked entries is not enough: a process listed for cluster 6 under the number
      of cluster 8 is dropped by a later update for cluster 8, and kept by an earlier one. */
  lemma ForeignProcessDoesNotCommute(h: Host, dir: string, role: string)
    requires h.find(dir, role) == Some(42)
    ensures var u := Update("6", true, true, Some([Proc(0, 8, dir, role, "")]));
            var v := Update("8", true, true, Some([]));
            Reconciled(h, v, Reconciled(h, u, map[])) != Reconciled(h, u, Reconciled(h, v, map[]))
  {
    var p := Proc(0, 8, dir, role, "");
    var u := Update("6", true, true, Some([p]));
    var v := Update("8", true, true, Some([]));
    assert Decimal(8) == [Digit(8)] == "8";
    assert p in u.procs.value;
    assert !Independent(h, u, "8", Lookup(map[], NameOf(h, p)), p);
    UpdatesCommuteIff(h, u, v, map[]);
  }
}
