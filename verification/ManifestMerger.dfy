/** The merge on dictionaries in memory. The manifest and the objects in it are copied one level
    deep before they are changed, so that the manifest that was passed in stays as it was. */
module ManifestMerger {
  import opened Options
  import opened Manifests

  /** A dictionary inside a manifest. */
  class Table {
    var entries: Object

    constructor (entries: Object)
      ensures this.entries == entries
    {
      this.entries := entries;
    }

    /** Adds an entry for each package of the fragment that was built. */
    method AddBuilt(w: World, frag: Object) returns (updated: set<string>)
      modifies this
      ensures entries == old(entries) + BuiltFor(w, frag, ARCHES)
      ensures updated == BuiltFor(w, frag, ARCHES).Keys
    {
      updated := {};
      for i := 0 to |ARCHES|
        invariant entries == old(entries) + BuiltFor(w, frag, ARCHES[..i])
        invariant updated == BuiltFor(w, frag, ARCHES[..i]).Keys
      {
        BuiltForNext(w, frag, i);
        var asset := NodeAsset(w, frag, ARCHES[i]);
        if w.isFile(asset) {
          PutInSum(old(entries), BuiltFor(w, frag, ARCHES[..i]), asset, NodeEntry(w, frag, ARCHES[i]));
          entries := entries[asset := NodeEntry(w, frag, ARCHES[i])];
          updated := updated + {asset};
        }
      }
      assert ARCHES[..|ARCHES|] == ARCHES;
    }
  }

  /** A value of a manifest; dictionaries are held by reference. */
  datatype Field = Leaf(json: Json) | Nested(table: Table)

  class Manifest {
    var fields: map<string, Field>

    constructor (fields: map<string, Field>)
      ensures this.fields == fields
    {
      this.fields := fields;
    }

    function View(): Object
      reads this, set k | k in fields && fields[k].Nested? :: fields[k].table
    {
      map k | k in fields :: ValueOf(fields[k])
    }

    /** dict(self.get(key) or {}): a new dictionary. */
    method CopyAt(key: string) returns (ok: bool, table: Table)
      ensures ok == ObjectAt(View(), key).Some?
      ensures fresh(table) && (ok ==> table.entries == ObjectAt(View(), key).value)
    {
      ok := true;
      if key !in fields || !Truthy(ValueOf(fields[key])) {
        table := new Table(map[]);
      } else {
        match fields[key] {
          case Nested(t) =>
            table := new Table(t.entries);
          case Leaf(Obj(entries)) =>
            table := new Table(entries);
          case Leaf(_) =>
            ok := false;
            table := new Table(map[]);
        }
      }
    }

    /** The node packages of a fragment. */
    method MergeNode(w: World, frag: Object) returns (ok: bool, updated: set<string>)
      modifies this
      ensures NodeStep(w, old(View()), frag) == if ok then Some(View()) else None
      ensures ok ==> updated == NodeBuilt(w, frag).Keys
    {
      updated := {};
      var version := TextOf(w, frag, "node_version");
      if version == "" {
        return true, {};
      }
      var nodeMap;
      ok, nodeMap := CopyAt("node");
      if !ok {
        return;
      }
      updated := nodeMap.AddBuilt(w, frag);
      assert View() == old(View());
      if updated != {} {
        SetNode(nodeMap, Str(TextOf(w, frag, "node_major")), Str(TextOf(w, frag, "node_variant")), Str(version));
      }
    }

    /** The last assignments for a node that was built. */
    method SetNode(nodeMap: Table, major: Json, variant: Json, version: Json)
      modifies this
      ensures View() == old(View())["node" := Obj(nodeMap.entries)]
                        + map["node_major" := major, "node_variant" := variant, "node_version" := version]
    {
      SetField("node", Nested(nodeMap));
      SetField("node_major", Leaf(major));
      SetField("node_variant", Leaf(variant));
      SetField("node_version", Leaf(version));
      InTurn(old(View())["node" := Obj(nodeMap.entries)],
             "node_major", major, "node_variant", variant, "node_version", version);
    }

    /** The tarballs of a fragment. */
    method MergeObservability(w: World, frag: Object) returns (ok: bool, updated: set<string>)
      modifies this
      ensures ObsStep(w, old(View()), frag) == if ok then Some(View()) else None
      ensures ok ==> updated == set arch | arch in ObsBuilt(w, frag) :: ObsBuilt(w, frag)[arch].text
    {
      updated := {};
      if ObjectAt(frag, "observability").None? {
        return false, {};
      }
      var built := ObsBuilt(w, frag);
      if built == map[] {
        return true, {};
      }
      var obsMap;
      ok, obsMap := CopyAt("observability");
      if !ok {
        return;
      }
      obsMap.entries := obsMap.entries + built;
      assert View() == old(View());
      SetField("observability", Nested(obsMap));
      SetTools(frag);
      updated := set arch | arch in built :: built[arch].text;
    }

    method SetTools(frag: Object)
      modifies this
      ensures View() == old(View()) + ToolsFrom(frag, TOOLS)
    {
      for i := 0 to |TOOLS|
        invariant View() == old(View()) + ToolsFrom(frag, TOOLS[..i])
      {
        ToolsNext(frag, i);
        if Get(frag, TOOLS[i]).Some? {
          PutInSum(old(View()), ToolsFrom(frag, TOOLS[..i]), TOOLS[i], frag[TOOLS[i]]);
          SetField(TOOLS[i], Leaf(frag[TOOLS[i]]));
        }
      }
      assert TOOLS[..|TOOLS|] == TOOLS;
    }

    method SetField(key: string, field: Field)
      modifies this
      ensures View() == old(View())[key := ValueOf(field)]
    {
      fields := fields[key := field];
    }
  }

  function ValueOf(field: Field): Json
    reads if field.Nested? then {field.table} else {}
  {
    match field
    case Leaf(json) => json
    case Nested(table) => Obj(table.entries)
  }

  lemma InTurn(m: Object, k1: string, j1: Json, k2: string, j2: Json, k3: string, j3: Json)
    requires k1 != k2 && k2 != k3 && k1 != k3
    ensures m[k1 := j1][k2 := j2][k3 := j3] == m + map[k1 := j1, k2 := j2, k3 := j3]
  {
  }

  lemma PutInSum(a: Object, b: Object, key: string, j: Json)
    ensures (a + b)[key := j] == a + b[key := j]
  {
  }

  lemma BuiltForNext(w: World, frag: Object, i: nat)
    requires i < |ARCHES|
    ensures var asset := NodeAsset(w, frag, ARCHES[i]);
            BuiltFor(w, frag, ARCHES[..i + 1])
            == if w.isFile(asset) then BuiltFor(w, frag, ARCHES[..i])[asset := NodeEntry(w, frag, ARCHES[i])]
               else BuiltFor(w, frag, ARCHES[..i])
  {
    assert ARCHES[..i + 1][..i] == ARCHES[..i];
  }

  lemma ToolsNext(frag: Object, i: nat)
    requires i < |TOOLS|
    ensures ToolsFrom(frag, TOOLS[..i + 1])
         == if Get(frag, TOOLS[i]).Some? then ToolsFrom(frag, TOOLS[..i])[TOOLS[i] := frag[TOOLS[i]]]
            else ToolsFrom(frag, TOOLS[..i])
  {
    assert TOOLS[..i + 1][..i] == TOOLS[..i];
  }

  datatype MergeResult = Done(merged: Manifest, updated: set<string>) | Empty | Malformed

  /** The loop over the fragments. */
  method MergeAll(w: World, merged: Manifest, frags: seq<Object>) returns (ok: bool, updated: set<string>)
    modifies merged
    ensures Steps(w, old(merged.View()), frags) == if ok then Some(State(merged.View(), updated)) else None
  {
    updated := {};
    ghost var start := merged.View();
    for i := 0 to |frags|
      invariant Steps(w, start, frags[..i]) == Some(State(merged.View(), updated))
    {
      StepsNext(w, start, frags, i);
      var nodes, tarballs;
      ok, nodes, tarballs := MergeOne(w, merged, frags[i]);
      if !ok {
        MalformedStays(w, start, frags, i + 1);
        return;
      }
      updated := updated + (nodes + tarballs);
    }
    assert frags[..|frags|] == frags;
    ok := true;
  }

  method MergeOne(w: World, merged: Manifest, frag: Object)
      returns (ok: bool, nodes: set<string>, tarballs: set<string>)
    modifies merged
    ensures Step(w, old(merged.View()), frag) == if ok then Some(merged.View()) else None
    ensures ok ==> nodes + tarballs == Reported(w, frag)
  {
    tarballs := {};
    ok, nodes := merged.MergeNode(w, frag);
    if ok {
      ok, tarballs := merged.MergeObservability(w, frag);
    }
  }

  /** The merge. It modifies nothing that was there before, so that the manifest passed in keeps
      its view, and it returns a new manifest. */
  method MergeManifests(w: World, existing: Manifest, frags: seq<Object>, now: string) returns (result: MergeResult)
    ensures match Merge(w, existing.View(), frags, now)
            case Merged(manifest, updated) =>
              result.Done? && fresh(result.merged) && result.merged.View() == manifest && result.updated == updated
            case NothingToMerge => result == Empty
            case WrongShape => result == Malformed
    ensures existing.View() == old(existing.View())
  {
    var merged := new Manifest(existing.fields);
    assert merged.View() == existing.View();
    var ok, updated := MergeAll(w, merged, frags);
    assert existing.View() == old(existing.View());
    if !ok {
      return Malformed;
    }
    if updated == {} {
      return Empty;
    }
    merged.SetField("build_time", Leaf(Str(now)));
    result := Done(merged, updated);
  }

  lemma StepsNext(w: World, m: Object, frags: seq<Object>, i: nat)
    requires i < |frags|
    ensures Steps(w, m, frags[..i + 1]) ==
      match Steps(w, m, frags[..i])
      case None => None
      case Some(s) =>
        match Step(w, s.manifest, frags[i])
        case None => None
        case Some(m') => Some(State(m', s.updated + Reported(w, frags[i])))
  {
    assert frags[..i + 1][..i] == frags[..i];
  }

  lemma {:induction false} MalformedStays(w: World, m: Object, frags: seq<Object>, i: nat)
    requires i <= |frags| && Steps(w, m, frags[..i]).None?
    ensures Steps(w, m, frags).None?
    decreases |frags| - i
  {
    if i < |frags| {
      StepsNext(w, m, frags, i);
      MalformedStays(w, m, frags, i + 1);
    } else {
      assert frags[..i] == frags;
    }
  }
}
