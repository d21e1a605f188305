/** What a merged manifest holds, entry by entry: the last build of each asset, and all that was
    not built as it was. */
module ManifestEntries {
  import opened Options
  import opened Manifests

  // ----- What one fragment builds -----

  lemma ArchesDiffer(w: World, frag: Object)
    ensures NodeAsset(w, frag, "amd64") != NodeAsset(w, frag, "arm64")
  {
    var stem := "node-" + TextOf(w, frag, "node_major") + "-" + TextOf(w, frag, "node_variant") + "-linux-";
    assert NodeAsset(w, frag, "amd64") == stem + "amd64" + ".tar.gz";
    assert NodeAsset(w, frag, "arm64") == stem + "arm64" + ".tar.gz";
    assert (stem + "amd64" + ".tar.gz")[|stem| + 1] == "amd64"[1] == 'm';
    assert (stem + "arm64" + ".tar.gz")[|stem| + 1] == "arm64"[1] == 'r';
  }

  ghost predicate Builds(w: World, frag: Object, asset: string, arch: string) {
    && TextOf(w, frag, "node_version") != "" && arch in ARCHES
    && asset == NodeAsset(w, frag, arch) && w.isFile(asset)
  }

  lemma BuiltForBoth(w: World, frag: Object, asset: string)
    ensures var a, b := NodeAsset(w, frag, "amd64"), NodeAsset(w, frag, "arm64");
            At(BuiltFor(w, frag, ARCHES), asset)
            == if asset == b && w.isFile(b) then Some(NodeEntry(w, frag, "arm64"))
               else if asset == a && w.isFile(a) then Some(NodeEntry(w, frag, "amd64"))
               else None
  {
    assert ARCHES[..1] == ["amd64"] && ["amd64"][..0] == [];
    assert BuiltFor(w, frag, []) == map[];
  }

  /** The node assets of a fragment are those of its version for which there is a file. */
  lemma NodeBuiltIff(w: World, frag: Object, asset: string)
    ensures asset in NodeBuilt(w, frag) <==> exists arch :: Builds(w, frag, asset, arch)
    ensures forall arch :: Builds(w, frag, asset, arch) ==> NodeBuilt(w, frag)[asset] == NodeEntry(w, frag, arch)
  {
    BuiltForBoth(w, frag, asset);
    ArchesDiffer(w, frag);
    assert ARCHES[0] == "amd64" && ARCHES[1] == "arm64";
    assert asset in NodeBuilt(w, frag) <==> Builds(w, frag, asset, "amd64") || Builds(w, frag, asset, "arm64");
  }

  // ----- The last writer -----

  /** The fragments as the maps of what they build. */
  function NodeParts(w: World, frags: seq<Object>): (parts: seq<Object>)
    ensures |parts| == |frags|
    ensures forall i :: 0 <= i < |frags| ==> parts[i] == NodeBuilt(w, frags[i])
  {
    seq(|frags|, i requires 0 <= i < |frags| => NodeBuilt(w, frags[i]))
  }

  function ObsParts(w: World, frags: seq<Object>): (parts: seq<Object>)
    ensures |parts| == |frags|
    ensures forall i :: 0 <= i < |frags| ==> parts[i] == ObsBuilt(w, frags[i])
  {
    seq(|frags|, i requires 0 <= i < |frags| => ObsBuilt(w, frags[i]))
  }

  /** What stands under a key after writing the parts over some entries in turn. */
  function Written(entries: Object, parts: seq<Object>, key: string): Option<Json> {
    if parts == [] then if key in entries then Some(entries[key]) else None
    else
      var last := parts[|parts| - 1];
      if key in last then Some(last[key]) else Written(entries, parts[..|parts| - 1], key)
  }

  function At(entries: Object, key: string): Option<Json> {
    if key in entries then Some(entries[key]) else None
  }

  /** The last part that has the key counts; */
  lemma {:induction false} LastWriterCounts(entries: Object, parts: seq<Object>, key: string, i: nat)
    requires i < |parts| && key in parts[i] && forall j :: i < j < |parts| ==> key !in parts[j]
    ensures Written(entries, parts, key) == Some(parts[i][key])
  {
    var n := |parts| - 1;
    if i < n {
      LastWriterCounts(entries, parts[..n], key, i);
    }
  }

  /** without one, the old entry stays. */
  lemma {:induction false} UnwrittenStays(entries: Object, parts: seq<Object>, key: string)
    requires forall i :: 0 <= i < |parts| ==> key !in parts[i]
    ensures Written(entries, parts, key) == At(entries, key)
  {
    if parts != [] {
      UnwrittenStays(entries, parts[..|parts| - 1], key);
    }
  }

  lemma PartsOfInit(w: World, frags: seq<Object>)
    requires frags != []
    ensures var n := |frags| - 1;
            NodeParts(w, frags)[..n] == NodeParts(w, frags[..n]) && ObsParts(w, frags)[..n] == ObsParts(w, frags[..n])
  {
  }

  lemma {:induction false} NodeOfAll(w: World, frags: seq<Object>, entries: Object, key: string)
    ensures At(entries + DeltaOfAll(w, frags).node, key) == Written(entries, NodeParts(w, frags), key)
  {
    if frags == [] {
      NothingWritten(entries);
    } else {
      var n := |frags| - 1;
      NodeOfAll(w, frags[..n], entries, key);
      PartsOfInit(w, frags);
    }
  }

  lemma {:induction false} ObsOfAll(w: World, frags: seq<Object>, entries: Object, key: string)
    ensures At(entries + DeltaOfAll(w, frags).obs, key) == Written(entries, ObsParts(w, frags), key)
  {
    if frags == [] {
      NothingWritten(entries);
    } else {
      var n := |frags| - 1;
      ObsOfAll(w, frags[..n], entries, key);
      PartsOfInit(w, frags);
    }
  }

  lemma EntriesAfter(m: Object, d: Delta)
    requires IsDelta(d)
    ensures Entries(Apply(m, d), "node") == Entries(m, "node") + d.node
    ensures Entries(Apply(m, d), "observability") == Entries(m, "observability") + d.obs
  {
    ObjectsAfter(m, d);
    NothingWritten(Entries(m, "node"));
    NothingWritten(Entries(m, "observability"));
  }

  lemma NothingWritten(entries: Object)
    ensures entries + map[] == entries
  {
  }

  lemma EntriesBesideTime(m: Object, time: Json)
    ensures Entries(m["build_time" := time], "node") == Entries(m, "node")
    ensures Entries(m["build_time" := time], "observability") == Entries(m, "observability")
  {
    TimeIsApart(m, NO_CHANGE, time);
  }

  /** Each node asset and each architecture of a merged manifest holds what the last fragment that
      built it says, or else what the old manifest had. */
  lemma MergedEntries(w: World, existing: Object, frags: seq<Object>, now: string, key: string)
    requires Merge(w, existing, frags, now).Merged?
    ensures var m := Merge(w, existing, frags, now).manifest;
            && At(Entries(m, "node"), key) == Written(Entries(existing, "node"), NodeParts(w, frags), key)
            && At(Entries(m, "observability"), key)
               == Written(Entries(existing, "observability"), ObsParts(w, frags), key)
  {
    var d := DeltaOfAll(w, frags);
    MergeIsOneChange(w, existing, frags, now);
    DeltasAreDelta(w, frags);
    EntriesAfter(existing, d);
    EntriesBesideTime(Apply(existing, d), Str(now));
    NodeOfAll(w, frags, Entries(existing, "node"), key);
    ObsOfAll(w, frags, Entries(existing, "observability"), key);
  }

  /** A node asset that no fragment built in this run is preserved, */
  lemma UnbuiltNodeIsPreserved(w: World, existing: Object, frags: seq<Object>, now: string, asset: string)
    requires Merge(w, existing, frags, now).Merged?
    requires forall i :: 0 <= i < |frags| ==> asset !in NodeBuilt(w, frags[i])
    ensures At(Entries(Merge(w, existing, frags, now).manifest, "node"), asset) == At(Entries(existing, "node"), asset)
  {
    MergedEntries(w, existing, frags, now, asset);
    UnwrittenStays(Entries(existing, "node"), NodeParts(w, frags), asset);
  }

  /** so is an architecture for which no fragment built a tarball, */
  lemma UnbuiltTarballIsPreserved(w: World, existing: Object, frags: seq<Object>, now: string, arch: string)
    requires Merge(w, existing, frags, now).Merged?
    requires forall i :: 0 <= i < |frags| ==> arch !in ObsBuilt(w, frags[i])
    ensures At(Entries(Merge(w, existing, frags, now).manifest, "observability"), arch)
         == At(Entries(existing, "observability"), arch)
  {
    MergedEntries(w, existing, frags, now, arch);
    UnwrittenStays(Entries(existing, "observability"), ObsParts(w, frags), arch);
  }

  /** and so is every other field. */
  lemma OtherFieldIsPreserved(w: World, existing: Object, frags: seq<Object>, now: string, key: string)
    requires Merge(w, existing, frags, now).Merged?
    requires key !in FIELDS && key !in {"node", "observability", "build_time"}
    ensures At(Merge(w, existing, frags, now).manifest, key) == At(existing, key)
  {
    MergeIsOneChange(w, existing, frags, now);
    DeltasAreDelta(w, frags);
    ApplyElsewhere(existing, DeltaOfAll(w, frags), key);
  }

  lemma ApplyElsewhere(m: Object, d: Delta, key: string)
    requires key != "node" && key != "observability" && key !in d.fields
    ensures At(Apply(m, d), key) == At(m, key)
  {
  }

  // ----- Reported assets -----

  /** The asset has a node entry, or is the tarball of some architecture. */
  ghost predicate Recorded(m: Object, asset: string) {
    asset in Entries(m, "node") || exists arch :: At(Entries(m, "observability"), arch) == Some(Str(asset))
  }

  lemma {:induction false} ReporterOf(w: World, frags: seq<Object>, asset: string) returns (i: nat)
    requires asset in ReportedAll(w, frags)
    ensures i < |frags| && asset in Reported(w, frags[i])
  {
    var n := |frags| - 1;
    if asset in Reported(w, frags[n]) {
      i := n;
    } else {
      i := ReporterOf(w, frags[..n], asset);
    }
  }

  lemma {:induction false} ReportedByOne(w: World, frags: seq<Object>, asset: string, i: nat)
    requires i < |frags| && asset in Reported(w, frags[i])
    ensures asset in ReportedAll(w, frags)
  {
    if i < |frags| - 1 {
      ReportedByOne(w, frags[..|frags| - 1], asset, i);
    }
  }

  /** Every reported asset is a file in the assets directory. */
  lemma ReportedExists(w: World, existing: Object, frags: seq<Object>, now: string, asset: string)
    requires Merge(w, existing, frags, now).Merged? && asset in Merge(w, existing, frags, now).updated
    ensures w.isFile(asset)
  {
    MergeIsOneChange(w, existing, frags, now);
    var i := ReporterOf(w, frags, asset);
    NodeBuiltIff(w, frags[i], asset);
  }

  /** Every node asset that was built is recorded, with the entry of the last fragment that built it. */
  lemma NodeAssetIsRecorded(w: World, existing: Object, frags: seq<Object>, now: string,
                            i: nat, asset: string, arch: string)
    requires Merge(w, existing, frags, now).Merged?
    requires i < |frags| && Builds(w, frags[i], asset, arch)
    requires forall j :: i < j < |frags| ==> asset !in NodeBuilt(w, frags[j])
    ensures At(Entries(Merge(w, existing, frags, now).manifest, "node"), asset) == Some(NodeEntry(w, frags[i], arch))
  {
    MergedEntries(w, existing, frags, now, asset);
    NodeBuiltIff(w, frags[i], asset);
    LastWriterCounts(Entries(existing, "node"), NodeParts(w, frags), asset, i);
  }

  /** The fragment names a tarball for the architecture, and there is such a file. */
  predicate BuildsTarball(w: World, frag: Object, arch: string, name: string) {
    At(Entries(frag, "observability"), arch) == Some(Str(name)) && name != "" && w.isFile(name)
  }

  lemma ObsBuiltIff(w: World, frag: Object, arch: string, name: string)
    ensures At(ObsBuilt(w, frag), arch) == Some(Str(name)) <==> BuildsTarball(w, frag, arch, name)
    ensures arch in ObsBuilt(w, frag) ==>
              exists name' :: ObsBuilt(w, frag)[arch] == Str(name') && BuildsTarball(w, frag, arch, name')
  {
    if arch in ObsBuilt(w, frag) {
      assert BuildsTarball(w, frag, arch, ObsBuilt(w, frag)[arch].text);
    }
  }

  ghost predicate NoTarball(w: World, frags: seq<Object>, arch: string, from: nat) {
    forall j: nat, other :: from <= j < |frags| ==> !BuildsTarball(w, frags[j], arch, other)
  }

  /** Fragment i is the last one with a tarball for the architecture. */
  ghost predicate LastBuilds(w: World, frags: seq<Object>, arch: string, name: string, i: nat) {
    i < |frags| && BuildsTarball(w, frags[i], arch, name) && NoTarball(w, frags, arch, i + 1)
  }

  /** The architecture ends with this tarball: the last fragment to build one for it names it, or
      none does and the old manifest had it. */
  ghost predicate EndsWith(w: World, existing: Object, frags: seq<Object>, arch: string, name: string) {
    || (exists i: nat :: LastBuilds(w, frags, arch, name, i))
    || (NoTarball(w, frags, arch, 0) && At(Entries(existing, "observability"), arch) == Some(Str(name)))
  }

  lemma NoneBuilt(w: World, frags: seq<Object>, arch: string, from: nat)
    ensures NoTarball(w, frags, arch, from) <==> forall j: nat :: from <= j < |frags| ==> arch !in ObsParts(w, frags)[j]
  {
    forall j: nat | from <= j < |frags|
      ensures arch !in ObsParts(w, frags)[j] <==> forall other :: !BuildsTarball(w, frags[j], arch, other)
    {
      forall other ensures BuildsTarball(w, frags[j], arch, other) ==> arch in ObsBuilt(w, frags[j]) {
        ObsBuiltIff(w, frags[j], arch, other);
      }
      ObsBuiltIff(w, frags[j], arch, "");
    }
  }

  lemma {:induction false} LastWith(parts: seq<Object>, key: string) returns (i: nat)
    ensures i <= |parts| && forall j :: i <= j < |parts| ==> key !in parts[j]
    ensures i > 0 ==> key in parts[i - 1]
  {
    i := |parts|;
    if i > 0 && key !in parts[i - 1] {
      i := LastWith(parts[..i - 1], key);
      assert forall j :: i <= j < |parts| - 1 ==> parts[..|parts| - 1][j] == parts[j];
    }
  }

  /** What an architecture of a merged manifest holds, from the fragments. */
  lemma TarballIff(w: World, existing: Object, frags: seq<Object>, now: string, arch: string, name: string)
    requires Merge(w, existing, frags, now).Merged?
    ensures At(Entries(Merge(w, existing, frags, now).manifest, "observability"), arch) == Some(Str(name))
       <==> EndsWith(w, existing, frags, arch, name)
  {
    MergedEntries(w, existing, frags, now, arch);
    WrittenIff(w, Entries(existing, "observability"), frags, arch, name);
  }

  lemma WrittenIff(w: World, entries: Object, frags: seq<Object>, arch: string, name: string)
    ensures Written(entries, ObsParts(w, frags), arch) == Some(Str(name)) <==>
              || (exists i: nat :: LastBuilds(w, frags, arch, name, i))
              || (NoTarball(w, frags, arch, 0) && At(entries, arch) == Some(Str(name)))
  {
    var parts := ObsParts(w, frags);
    var n := LastWith(parts, arch);
    NoneBuilt(w, frags, arch, n);
    NoneBuilt(w, frags, arch, 0);
    if n == 0 {
      UnwrittenStays(entries, parts, arch);
    } else {
      LastWriterCounts(entries, parts, arch, n - 1);
      ObsBuiltIff(w, frags[n - 1], arch, name);
      assert !NoTarball(w, frags, arch, 0);
      if i: nat :| LastBuilds(w, frags, arch, name, i) {
        LastIsOne(w, frags, arch, name, i, n);
      }
      if BuildsTarball(w, frags[n - 1], arch, name) {
        assert LastBuilds(w, frags, arch, name, n - 1);
      }
    }
  }

  lemma LastIsOne(w: World, frags: seq<Object>, arch: string, name: string, i: nat, n: nat)
    requires LastBuilds(w, frags, arch, name, i)
    requires 0 < n <= |frags| && NoTarball(w, frags, arch, n) && arch in ObsBuilt(w, frags[n - 1])
    ensures i == n - 1
  {
    ObsBuiltIff(w, frags[n - 1], arch, name);
  }

  /** An asset is recorded exactly if it has a node entry, old or new, or is the tarball that some
      architecture ends with. */
  lemma RecordedIff(w: World, existing: Object, frags: seq<Object>, now: string, asset: string)
    requires Merge(w, existing, frags, now).Merged?
    ensures Recorded(Merge(w, existing, frags, now).manifest, asset) <==>
              || asset in Entries(existing, "node")
              || (exists i :: 0 <= i < |frags| && asset in NodeBuilt(w, frags[i]))
              || (exists arch :: EndsWith(w, existing, frags, arch, asset))
  {
    var m := Merge(w, existing, frags, now).manifest;
    NodeRecordedIff(w, existing, frags, now, asset);
    forall arch
      ensures At(Entries(m, "observability"), arch) == Some(Str(asset)) <==> EndsWith(w, existing, frags, arch, asset)
    {
      TarballIff(w, existing, frags, now, arch, asset);
    }
  }

  lemma NodeRecordedIff(w: World, existing: Object, frags: seq<Object>, now: string, asset: string)
    requires Merge(w, existing, frags, now).Merged?
    ensures asset in Entries(Merge(w, existing, frags, now).manifest, "node") <==>
              asset in Entries(existing, "node") || exists i :: 0 <= i < |frags| && asset in NodeBuilt(w, frags[i])
  {
    MergedEntries(w, existing, frags, now, asset);
    WrittenSomeIff(Entries(existing, "node"), NodeParts(w, frags), asset);
    if i :| 0 <= i < |frags| && asset in NodeParts(w, frags)[i] {
      assert asset in NodeBuilt(w, frags[i]);
    }
    if i :| 0 <= i < |frags| && asset in NodeBuilt(w, frags[i]) {
      assert asset in NodeParts(w, frags)[i];
    }
  }

  lemma WrittenSomeIff(entries: Object, parts: seq<Object>, key: string)
    ensures Written(entries, parts, key).Some? <==> key in entries || exists i :: 0 <= i < |parts| && key in parts[i]
  {
    var n := LastWith(parts, key);
    if n == 0 {
      UnwrittenStays(entries, parts, key);
    } else {
      LastWriterCounts(entries, parts, key, n - 1);
    }
  }

  /** No two fragments build different tarballs for one architecture. */
  ghost predicate NoRivals(w: World, frags: seq<Object>) {
    forall i: nat, j: nat, arch, a, b ::
      i < |frags| && j < |frags| && BuildsTarball(w, frags[i], arch, a) && BuildsTarball(w, frags[j], arch, b) ==>
        a == b
  }

  /** Then every reported asset is recorded. */
  lemma ReportedIsRecorded(w: World, existing: Object, frags: seq<Object>, now: string, asset: string)
    requires Merge(w, existing, frags, now).Merged? && NoRivals(w, frags)
    requires asset in Merge(w, existing, frags, now).updated
    ensures Recorded(Merge(w, existing, frags, now).manifest, asset)
  {
    MergeIsOneChange(w, existing, frags, now);
    RecordedIff(w, existing, frags, now, asset);
    var i := ReporterOf(w, frags, asset);
    if asset !in NodeBuilt(w, frags[i]) {
      var arch :| arch in ObsBuilt(w, frags[i]) && ObsBuilt(w, frags[i])[arch].text == asset;
      ObsBuiltIff(w, frags[i], arch, asset);
      OnlyTarballIsLast(w, frags, i, arch, asset);
      assert EndsWith(w, existing, frags, arch, asset);
    }
  }

  lemma OnlyTarballIsLast(w: World, frags: seq<Object>, i: nat, arch: string, name: string)
    requires NoRivals(w, frags) && i < |frags| && BuildsTarball(w, frags[i], arch, name)
    ensures exists n: nat :: LastBuilds(w, frags, arch, name, n)
  {
    var n := LastWith(ObsParts(w, frags), arch);
    NoneBuilt(w, frags, arch, n);
    ObsBuiltIff(w, frags[i], arch, name);
    assert n > 0;
    ObsBuiltIff(w, frags[n - 1], arch, name);
    assert LastBuilds(w, frags, arch, name, n - 1);
  }

  /** A fragment with one tarball. */
  function Tarball(arch: string, name: string): Object {
    map["observability" := Obj(map[arch := Str(name)])]
  }

  lemma TarballBuilds(w: World, m: Object, arch: string, name: string)
    requires w.isFile(name) && name != "" && ObjectAt(m, "observability").Some?
    ensures NodeBuilt(w, Tarball(arch, name)) == map[] && ObsBuilt(w, Tarball(arch, name)) == map[arch := Str(name)]
    ensures Reported(w, Tarball(arch, name)) == {name} && Fits(w, m, Tarball(arch, name))
  {
    var frag, obs: Object := Tarball(arch, name), map[arch := Str(name)];
    assert arch in obs;
    assert ObjectAt(frag, "observability") == Some(obs);
    assert "node_version" !in frag;
    assert ObsBuilt(w, frag) == obs;
    assert obs[arch].text in Reported(w, frag);
  }

  /** Not every reported asset is recorded: a later fragment may name another tarball for the same
      architecture. */
  lemma OverwrittenTarball(w: World, arch: string, a: string, b: string)
    requires w.isFile(a) && w.isFile(b) && a != b && a != "" && b != ""
    ensures var outcome := Merge(w, map[], [Tarball(arch, a), Tarball(arch, b)], "");
            outcome.Merged? && a in outcome.updated && !Recorded(outcome.manifest, a)
  {
    var frags := [Tarball(arch, a), Tarball(arch, b)];
    TarballsFit(w, frags, arch, a, b);
    TarballIsNotFinal(w, frags, arch, a, b);
    UnrecordedWhen(w, map[], frags, "", a);
  }

  lemma TarballsFit(w: World, frags: seq<Object>, arch: string, a: string, b: string)
    requires frags == [Tarball(arch, a), Tarball(arch, b)] && w.isFile(a) && w.isFile(b) && a != "" && b != ""
    ensures AllFit(w, map[], frags) && a in ReportedAll(w, frags)
  {
    TarballBuilds(w, map[], arch, a);
    TarballBuilds(w, map[], arch, b);
    ReportedByOne(w, frags, a, 0);
  }

  lemma UnrecordedWhen(w: World, existing: Object, frags: seq<Object>, now: string, asset: string)
    requires AllFit(w, existing, frags) && asset in ReportedAll(w, frags)
    requires asset !in Entries(existing, "node") && forall i :: 0 <= i < |frags| ==> asset !in NodeBuilt(w, frags[i])
    requires !exists arch :: EndsWith(w, existing, frags, arch, asset)
    ensures var outcome := Merge(w, existing, frags, now);
            outcome.Merged? && asset in outcome.updated && !Recorded(outcome.manifest, asset)
  {
    MergeIsOneChange(w, existing, frags, now);
    RecordedIff(w, existing, frags, now, asset);
  }

  lemma TarballIsNotFinal(w: World, frags: seq<Object>, arch: string, a: string, b: string)
    requires frags == [Tarball(arch, a), Tarball(arch, b)] && a != b
    requires w.isFile(a) && w.isFile(b) && a != "" && b != ""
    ensures (forall i :: 0 <= i < |frags| ==> a !in NodeBuilt(w, frags[i]))
    ensures !exists k :: EndsWith(w, map[], frags, k, a)
  {
    TarballBuilds(w, map[], arch, a);
    TarballBuilds(w, map[], arch, b);
    assert Entries(map[], "observability") == map[];
    if k :| EndsWith(w, map[], frags, k, a) {
      WrittenIff(w, map[], frags, k, a);
      WrittenTwice(ObsParts(w, frags), k);
      assert false;
    }
  }

  lemma WrittenTwice(parts: seq<Object>, key: string)
    requires |parts| == 2
    ensures Written(map[], parts, key)
         == if key in parts[1] then Some(parts[1][key]) else if key in parts[0] then Some(parts[0][key]) else None
  {
    assert parts[..1][..0] == [] && parts[..1][0] == parts[0];
    assert Written(map[], [], key) == None;
  }
}
