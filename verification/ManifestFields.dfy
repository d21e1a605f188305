/** What a merged manifest holds in the end, value by value, from the texts of the fragments. */
module ManifestFields {
  import opened Options
  import opened Manifests
  import opened ManifestEntries

  // ----- Texts -----

  /** A string counts as it is, a missing key as nothing, and so does any other falsy value. */
  lemma TextMeaning(w: World, frag: Object, key: string, s: string)
    ensures key in frag && frag[key] == Str(s) ==> TextOf(w, frag, key) == s
    ensures key !in frag || frag[key] == Null ==> TextOf(w, frag, key) == ""
    ensures key in frag && frag[key].Num? && frag[key].number != 0.0 ==> TextOf(w, frag, key) == w.show(frag[key])
  {
  }

  /** These are the falsy values. */
  lemma TruthyIff(j: Json)
    ensures Truthy(j) <==> j !in {Null, Bool(false), Num(0.0), Str(""), Arr([]), Obj(map[])}
  {
  }

  /** A key is of the wrong shape exactly if it holds a truthy value that is not an object. */
  lemma WrongShapeIff(o: Object, key: string)
    ensures ObjectAt(o, key).None? <==>
              key in o && !o[key].Obj? && o[key] !in {Null, Bool(false), Num(0.0), Str(""), Arr([])}
    ensures key in o && o[key].Obj? ==> ObjectAt(o, key) == Some(o[key].entries)
    ensures key !in o || o[key] in {Null, Bool(false), Num(0.0), Str(""), Arr([])} ==> ObjectAt(o, key) == Some(map[])
  {
    if key in o {
      TruthyIff(o[key]);
    }
  }

  // ----- Node assets -----

  /** The value under a node asset: an object that says which version, for which architecture. */
  ghost predicate IsEntry(j: Json, version: string, major: string, variant: string, arch: string) {
    && j.Obj?
    && At(j.entries, "version") == Some(Str(version))
    && At(j.entries, "major") == Some(Str(major))
    && At(j.entries, "variant") == Some(Str(variant))
    && At(j.entries, "arch") == Some(Str(arch))
    && j.entries.Keys == {"version", "major", "variant", "arch"}
  }

  /** The name of the package of a node version for an architecture. */
  ghost predicate IsPackageName(name: string, major: string, variant: string, arch: string) {
    name == "node-" + major + "-" + variant + "-linux-" + arch + ".tar.gz"
  }

  lemma EntryIs(w: World, frag: Object, arch: string)
    ensures IsEntry(NodeEntry(w, frag, arch), TextOf(w, frag, "node_version"), TextOf(w, frag, "node_major"),
                    TextOf(w, frag, "node_variant"), arch)
    ensures IsPackageName(NodeAsset(w, frag, arch), TextOf(w, frag, "node_major"), TextOf(w, frag, "node_variant"),
                          arch)
  {
  }

  /** The fragment names a version, and its package for one of the architectures is there. */
  ghost predicate HasPackage(w: World, frag: Object, name: string, arch: string) {
    && TextOf(w, frag, "node_version") != "" && (arch == "amd64" || arch == "arm64")
    && IsPackageName(name, TextOf(w, frag, "node_major"), TextOf(w, frag, "node_variant"), arch)
    && w.isFile(name)
  }

  lemma HasPackageIff(w: World, frag: Object, name: string, arch: string)
    ensures HasPackage(w, frag, name, arch) <==> Builds(w, frag, name, arch)
  {
    EntryIs(w, frag, arch);
    assert ARCHES[0] == "amd64" && ARCHES[1] == "arm64";
  }

  /** The last fragment with a package decides the entry under its name. */
  lemma NodeEntryIs(w: World, existing: Object, frags: seq<Object>, now: string, i: nat, name: string, arch: string)
    requires Merge(w, existing, frags, now).Merged?
    requires i < |frags| && HasPackage(w, frags[i], name, arch)
    requires forall j, other :: i < j < |frags| ==> !HasPackage(w, frags[j], name, other)
    ensures var m := Merge(w, existing, frags, now).manifest;
            && "node" in m && m["node"].Obj? && name in m["node"].entries
            && IsEntry(m["node"].entries[name], TextOf(w, frags[i], "node_version"),
                       TextOf(w, frags[i], "node_major"), TextOf(w, frags[i], "node_variant"), arch)
  {
    HasPackageIff(w, frags[i], name, arch);
    forall j | i < j < |frags| ensures name !in NodeBuilt(w, frags[j]) {
      NodeBuiltIff(w, frags[j], name);
      if other :| Builds(w, frags[j], name, other) {
        HasPackageIff(w, frags[j], name, other);
      }
    }
    NodeAssetIsRecorded(w, existing, frags, now, i, name, arch);
    EntryIs(w, frags[i], arch);
  }

  // ----- Single fields -----

  function FieldParts(w: World, frags: seq<Object>): (parts: seq<Object>)
    ensures |parts| == |frags|
    ensures forall i :: 0 <= i < |frags| ==> parts[i] == DeltaOf(w, frags[i]).fields
  {
    seq(|frags|, i requires 0 <= i < |frags| => DeltaOf(w, frags[i]).fields)
  }

  lemma FieldPartsOfInit(w: World, frags: seq<Object>)
    requires frags != []
    ensures FieldParts(w, frags)[..|frags| - 1] == FieldParts(w, frags[..|frags| - 1])
  {
  }

  lemma {:induction false} FieldsOfAll(w: World, frags: seq<Object>, m: Object, key: string)
    ensures At(m + DeltaOfAll(w, frags).fields, key) == Written(m, FieldParts(w, frags), key)
  {
    if frags == [] {
      NothingWritten(m);
    } else {
      FieldsOfAll(w, frags[..|frags| - 1], m, key);
      FieldPartsOfInit(w, frags);
    }
  }

  lemma {:induction false} ToolFrom(frag: Object, tools: seq<string>, tool: string)
    ensures At(ToolsFrom(frag, tools), tool) == if tool in tools then Get(frag, tool) else None
  {
    if tools != [] {
      var n := |tools| - 1;
      assert tools == tools[..n] + [tools[n]];
      ToolFrom(frag, tools[..n], tool);
    }
  }

  const NODE_KEYS := {"node_major", "node_variant", "node_version"}
  const TOOL_KEYS := {"prometheus", "alertmanager", "grafana"}

  lemma NodeFieldOf(w: World, frag: Object, key: string)
    requires key in NODE_KEYS
    ensures At(DeltaOf(w, frag).fields, key)
         == if NodeBuilt(w, frag) == map[] then None else Some(Str(TextOf(w, frag, key)))
  {
    ToolFrom(frag, TOOLS, key);
    assert TOOLS[0] == "prometheus" && TOOLS[1] == "alertmanager" && TOOLS[2] == "grafana";
  }

  lemma ToolFieldOf(w: World, frag: Object, key: string)
    requires key in TOOL_KEYS
    ensures At(DeltaOf(w, frag).fields, key) == if ObsBuilt(w, frag) == map[] then None else Get(frag, key)
  {
    ToolFrom(frag, TOOLS, key);
    assert TOOLS[0] == "prometheus" && TOOLS[1] == "alertmanager" && TOOLS[2] == "grafana";
    assert key !in NodeFields(w, frag);
  }

  lemma FieldAfter(m: Object, d: Delta, key: string, time: Json)
    requires key != "node" && key != "observability" && key != "build_time"
    ensures At(Apply(m, d)["build_time" := time], key) == At(m + d.fields, key)
  {
  }

  lemma MergedField(w: World, existing: Object, frags: seq<Object>, now: string, key: string)
    requires Merge(w, existing, frags, now).Merged?
    requires key in NODE_KEYS || key in TOOL_KEYS
    ensures At(Merge(w, existing, frags, now).manifest, key) == Written(existing, FieldParts(w, frags), key)
  {
    MergeIsOneChange(w, existing, frags, now);
    FieldAfter(existing, DeltaOfAll(w, frags), key, Str(now));
    FieldsOfAll(w, frags, existing, key);
  }

  ghost predicate HasSomePackage(w: World, frag: Object) {
    exists name, arch :: HasPackage(w, frag, name, arch)
  }

  lemma BuiltSomeIff(w: World, frag: Object)
    ensures NodeBuilt(w, frag) != map[] <==> HasSomePackage(w, frag)
  {
    if NodeBuilt(w, frag) != map[] {
      var name :| name in NodeBuilt(w, frag);
      NodeBuiltIff(w, frag, name);
      var arch :| Builds(w, frag, name, arch);
      HasPackageIff(w, frag, name, arch);
    }
    if name, arch :| HasPackage(w, frag, name, arch) {
      HasPackageIff(w, frag, name, arch);
      NodeBuiltIff(w, frag, name);
    }
  }

  /** The last fragment with a package decides the version fields of the manifest, */
  lemma NodeFieldIs(w: World, existing: Object, frags: seq<Object>, now: string, i: nat, key: string)
    requires Merge(w, existing, frags, now).Merged? && key in NODE_KEYS
    requires i < |frags| && HasSomePackage(w, frags[i])
    requires forall j :: i < j < |frags| ==> !HasSomePackage(w, frags[j])
    ensures At(Merge(w, existing, frags, now).manifest, key) == Some(Str(TextOf(w, frags[i], key)))
  {
    var parts := FieldParts(w, frags);
    forall j | i <= j < |frags| ensures key in parts[j] <==> j == i {
      NodeFieldOf(w, frags[j], key);
      BuiltSomeIff(w, frags[j]);
    }
    NodeFieldOf(w, frags[i], key);
    MergedField(w, existing, frags, now, key);
    LastWriterCounts(existing, parts, key, i);
  }

  /** which stay as they were if there is none. */
  lemma NodeFieldStays(w: World, existing: Object, frags: seq<Object>, now: string, key: string)
    requires Merge(w, existing, frags, now).Merged? && key in NODE_KEYS
    requires forall j :: 0 <= j < |frags| ==> !HasSomePackage(w, frags[j])
    ensures At(Merge(w, existing, frags, now).manifest, key) == At(existing, key)
  {
    var parts := FieldParts(w, frags);
    forall j | 0 <= j < |frags| ensures key !in parts[j] {
      NodeFieldOf(w, frags[j], key);
      BuiltSomeIff(w, frags[j]);
    }
    MergedField(w, existing, frags, now, key);
    UnwrittenStays(existing, parts, key);
  }

  /** The fragment built a tarball and has a value for the tool. */
  ghost predicate SetsTool(w: World, frag: Object, tool: string) {
    && (exists arch, name :: BuildsTarball(w, frag, arch, name))
    && tool in frag && Truthy(frag[tool])
  }

  lemma SetsToolIff(w: World, frag: Object, tool: string)
    ensures SetsTool(w, frag, tool) <==> ObsBuilt(w, frag) != map[] && Get(frag, tool).Some?
  {
    if ObsBuilt(w, frag) != map[] {
      var arch :| arch in ObsBuilt(w, frag);
      ObsBuiltIff(w, frag, arch, "");
    }
    if arch, name :| BuildsTarball(w, frag, arch, name) {
      ObsBuiltIff(w, frag, arch, name);
    }
  }

  /** The last fragment that built a tarball and has a value for a tool decides that value, */
  lemma ToolFieldIs(w: World, existing: Object, frags: seq<Object>, now: string, i: nat, tool: string)
    requires Merge(w, existing, frags, now).Merged? && tool in TOOL_KEYS
    requires i < |frags| && SetsTool(w, frags[i], tool)
    requires forall j :: i < j < |frags| ==> !SetsTool(w, frags[j], tool)
    ensures At(Merge(w, existing, frags, now).manifest, tool) == Some(frags[i][tool])
  {
    var parts := FieldParts(w, frags);
    forall j | i <= j < |frags| ensures tool in parts[j] <==> j == i {
      ToolFieldOf(w, frags[j], tool);
      SetsToolIff(w, frags[j], tool);
    }
    ToolFieldOf(w, frags[i], tool);
    SetsToolIff(w, frags[i], tool);
    MergedField(w, existing, frags, now, tool);
    LastWriterCounts(existing, parts, tool, i);
  }

  /** which stays as it was if there is none. */
  lemma ToolFieldStays(w: World, existing: Object, frags: seq<Object>, now: string, tool: string)
    requires Merge(w, existing, frags, now).Merged? && tool in TOOL_KEYS
    requires forall j :: 0 <= j < |frags| ==> !SetsTool(w, frags[j], tool)
    ensures At(Merge(w, existing, frags, now).manifest, tool) == At(existing, tool)
  {
    var parts := FieldParts(w, frags);
    forall j | 0 <= j < |frags| ensures tool !in parts[j] {
      ToolFieldOf(w, frags[j], tool);
      SetsToolIff(w, frags[j], tool);
    }
    MergedField(w, existing, frags, now, tool);
    UnwrittenStays(existing, parts, tool);
  }

  /** The time of the build is the one given. */
  lemma BuildTimeIs(w: World, existing: Object, frags: seq<Object>, now: string)
    requires Merge(w, existing, frags, now).Merged?
    ensures At(Merge(w, existing, frags, now).manifest, "build_time") == Some(Str(now))
  {
  }

  // ----- What is reported -----

  /** The fragment has a package of this name, or a tarball. */
  ghost predicate BuildsAsset(w: World, frag: Object, asset: string) {
    (exists arch :: HasPackage(w, frag, asset, arch)) || exists arch :: BuildsTarball(w, frag, arch, asset)
  }

  lemma ReportedOfOneIff(w: World, frag: Object, asset: string)
    ensures asset in Reported(w, frag) <==> BuildsAsset(w, frag, asset)
  {
    NodeBuiltIff(w, frag, asset);
    if arch :| HasPackage(w, frag, asset, arch) {
      HasPackageIff(w, frag, asset, arch);
    }
    if arch :| Builds(w, frag, asset, arch) {
      HasPackageIff(w, frag, asset, arch);
    }
    TarballReportedIff(w, frag, asset);
  }

  lemma TarballReportedIff(w: World, frag: Object, asset: string)
    ensures (exists arch :: arch in ObsBuilt(w, frag) && ObsBuilt(w, frag)[arch].text == asset)
       <==> exists arch :: BuildsTarball(w, frag, arch, asset)
  {
    if arch :| arch in ObsBuilt(w, frag) && ObsBuilt(w, frag)[arch].text == asset {
      ObsBuiltIff(w, frag, arch, asset);
    }
    if arch :| BuildsTarball(w, frag, arch, asset) {
      ObsBuiltIff(w, frag, arch, asset);
      assert arch in ObsBuilt(w, frag);
    }
  }

  /** An asset is reported exactly if some fragment built it. */
  lemma ReportedIff(w: World, existing: Object, frags: seq<Object>, now: string, asset: string)
    requires Merge(w, existing, frags, now).Merged?
    ensures asset in Merge(w, existing, frags, now).updated <==>
              exists i :: 0 <= i < |frags| && BuildsAsset(w, frags[i], asset)
  {
    MergeIsOneChange(w, existing, frags, now);
    if asset in ReportedAll(w, frags) {
      var i := ReporterOf(w, frags, asset);
      ReportedOfOneIff(w, frags[i], asset);
    }
    if i :| 0 <= i < |frags| && BuildsAsset(w, frags[i], asset) {
      ReportedOfOneIff(w, frags[i], asset);
      ReportedByOne(w, frags, asset, i);
    }
  }
}
