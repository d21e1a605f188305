/** The manifest of released dependencies: what one merge makes of it, said in two ways, step by
    step and as one change. */
module Manifests {
  import opened Options

  // ----- JSON -----

  datatype Json =
    | Null
    | Bool(value: bool)
    | Num(number: real)
    | Str(text: string)
    | Arr(items: seq<Json>)
    | Obj(entries: map<string, Json>)

  type Object = map<string, Json>

  /** Python's truth value. */
  predicate Truthy(j: Json) {
    match j
    case Null => false
    case Bool(b) => b
    case Num(n) => n != 0.0
    case Str(s) => s != ""
    case Arr(items) => items != []
    case Obj(entries) => entries != map[]
  }

  /** What the merge asks of its surroundings: which names are files in the assets directory,
      and how Python prints a value that is not a string. */
  datatype World = World(isFile: string -> bool, show: Json -> string)

  /** The truthy value of a key. */
  function Get(o: Object, key: string): Option<Json> {
    if key in o && Truthy(o[key]) then Some(o[key]) else None
  }

  function TextOf(w: World, frag: Object, key: string): string {
    match Get(frag, key)
    case None => ""
    case Some(Str(s)) => s
    case Some(j) => w.show(j)
  }

  /** The object under a key: a new one if there is nothing there, none if it is something else. */
  function ObjectAt(o: Object, key: string): Option<Object> {
    match Get(o, key)
    case None => Some(map[])
    case Some(Obj(entries)) => Some(entries)
    case Some(_) => None
  }

  function Entries(o: Object, key: string): Object {
    match ObjectAt(o, key)
    case Some(entries) => entries
    case None => map[]
  }

  // ----- What a fragment built -----

  const ARCHES := ["amd64", "arm64"]
  const TOOLS := ["prometheus", "alertmanager", "grafana"]

  function AssetName(major: string, variant: string, arch: string): string {
    "node-" + major + "-" + variant + "-linux-" + arch + ".tar.gz"
  }

  function NodeAsset(w: World, frag: Object, arch: string): string {
    AssetName(TextOf(w, frag, "node_major"), TextOf(w, frag, "node_variant"), arch)
  }

  function NodeEntry(w: World, frag: Object, arch: string): Json {
    Obj(map[
      "major" := Str(TextOf(w, frag, "node_major")),
      "variant" := Str(TextOf(w, frag, "node_variant")),
      "version" := Str(TextOf(w, frag, "node_version")),
      "arch" := Str(arch)])
  }

  function BuiltFor(w: World, frag: Object, arches: seq<string>): Object {
    if arches == [] then map[]
    else
      var init, arch := BuiltFor(w, frag, arches[..|arches| - 1]), arches[|arches| - 1];
      var asset := NodeAsset(w, frag, arch);
      if w.isFile(asset) then init[asset := NodeEntry(w, frag, arch)] else init
  }

  function NodeBuilt(w: World, frag: Object): Object {
    if TextOf(w, frag, "node_version") == "" then map[] else BuiltFor(w, frag, ARCHES)
  }

  predicate IsBuilt(w: World, j: Json) {
    j.Str? && j.text != "" && w.isFile(j.text)
  }

  function ObsBuilt(w: World, frag: Object): Object {
    var obs := Entries(frag, "observability");
    map arch | arch in obs && IsBuilt(w, obs[arch]) :: obs[arch]
  }

  function ToolsFrom(frag: Object, tools: seq<string>): Object {
    if tools == [] then map[]
    else
      var init, tool := ToolsFrom(frag, tools[..|tools| - 1]), tools[|tools| - 1];
      if Get(frag, tool).Some? then init[tool := frag[tool]] else init
  }

  function NodeFields(w: World, frag: Object): Object {
    map[
      "node_major" := Str(TextOf(w, frag, "node_major")),
      "node_variant" := Str(TextOf(w, frag, "node_variant")),
      "node_version" := Str(TextOf(w, frag, "node_version"))]
  }

  /** The assets that a fragment is reported to have updated. */
  function Reported(w: World, frag: Object): set<string> {
    NodeBuilt(w, frag).Keys + set arch | arch in ObsBuilt(w, frag) :: ObsBuilt(w, frag)[arch].text
  }

  // ----- Step by step -----

  function NodeStep(w: World, m: Object, frag: Object): Option<Object> {
    var built := NodeBuilt(w, frag);
    if TextOf(w, frag, "node_version") == "" then Some(m)
    else match ObjectAt(m, "node")
      case None => None
      case Some(entries) => Some(if built == map[] then m else m["node" := Obj(entries + built)] + NodeFields(w, frag))
  }

  function ObsStep(w: World, m: Object, frag: Object): Option<Object> {
    var built := ObsBuilt(w, frag);
    if ObjectAt(frag, "observability").None? then None
    else if built == map[] then Some(m)
    else match ObjectAt(m, "observability")
      case None => None
      case Some(entries) => Some(m["observability" := Obj(entries + built)] + ToolsFrom(frag, TOOLS))
  }

  function Step(w: World, m: Object, frag: Object): Option<Object> {
    match NodeStep(w, m, frag)
    case None => None
    case Some(m') => ObsStep(w, m', frag)
  }

  datatype State = State(manifest: Object, updated: set<string>)

  function Steps(w: World, m: Object, frags: seq<Object>): Option<State> {
    if frags == [] then Some(State(m, {}))
    else
      var last := frags[|frags| - 1];
      match Steps(w, m, frags[..|frags| - 1])
      case None => None
      case Some(s) =>
        match Step(w, s.manifest, last)
        case None => None
        case Some(m') => Some(State(m', s.updated + Reported(w, last)))
  }

  datatype Outcome = Merged(manifest: Object, updated: set<string>) | NothingToMerge | WrongShape

  function Merge(w: World, existing: Object, frags: seq<Object>, now: string): Outcome {
    match Steps(w, existing, frags)
    case None => WrongShape
    case Some(s) => if s.updated == {} then NothingToMerge else Merged(s.manifest["build_time" := Str(now)], s.updated)
  }

  // ----- One change -----

  /** What a merge changes: node assets, tarballs by architecture, and single fields. */
  datatype Delta = Delta(node: Object, obs: Object, fields: Object)

  const FIELDS := {"node_major", "node_variant", "node_version", "prometheus", "alertmanager", "grafana"}

  function Sum(a: Delta, b: Delta): Delta {
    Delta(a.node + b.node, a.obs + b.obs, a.fields + b.fields)
  }

  const NO_CHANGE := Delta(map[], map[], map[])

  function DeltaOf(w: World, frag: Object): Delta {
    var node, obs := NodeBuilt(w, frag), ObsBuilt(w, frag);
    Delta(node, obs,
          (if node == map[] then map[] else NodeFields(w, frag))
          + (if obs == map[] then map[] else ToolsFrom(frag, TOOLS)))
  }

  function DeltaOfAll(w: World, frags: seq<Object>): Delta {
    if frags == [] then NO_CHANGE
    else Sum(DeltaOfAll(w, frags[..|frags| - 1]), DeltaOf(w, frags[|frags| - 1]))
  }

  function Overlaid(m: Object, key: string, entries: Object): Object {
    if entries == map[] then m else m[key := Obj(Entries(m, key) + entries)]
  }

  function Apply(m: Object, d: Delta): Object {
    Overlaid(Overlaid(m, "node", d.node), "observability", d.obs) + d.fields
  }

  /** The fragment can be merged into a manifest. */
  predicate Fits(w: World, m: Object, frag: Object) {
    && (TextOf(w, frag, "node_version") != "" ==> ObjectAt(m, "node").Some?)
    && ObjectAt(frag, "observability").Some?
    && (ObsBuilt(w, frag) != map[] ==> ObjectAt(m, "observability").Some?)
  }

  ghost predicate IsDelta(d: Delta) {
    d.fields.Keys <= FIELDS
  }

  // ----- The steps are one change -----

  lemma {:induction false} ToolKeys(frag: Object, tools: seq<string>)
    ensures forall tool :: tool in ToolsFrom(frag, tools) ==> tool in tools
  {
    if tools != [] {
      ToolKeys(frag, tools[..|tools| - 1]);
    }
  }

  lemma DeltaIsDelta(w: World, frag: Object)
    ensures IsDelta(DeltaOf(w, frag))
  {
    ToolKeys(frag, TOOLS);
  }

  lemma {:induction false} DeltasAreDelta(w: World, frags: seq<Object>)
    ensures IsDelta(DeltaOfAll(w, frags))
  {
    if frags != [] {
      DeltasAreDelta(w, frags[..|frags| - 1]);
      DeltaIsDelta(w, frags[|frags| - 1]);
    }
  }

  // Overlaying an object under a key.

  lemma OverlayGrows(o: Object, entries: Object)
    requires entries != map[]
    ensures o + entries != map[]
  {
    var k :| k in entries;
    assert k in o + entries;
  }

  lemma ObjectOverlaid(m: Object, key: string, entries: Object, at: string)
    ensures entries != map[] ==> ObjectAt(Overlaid(m, key, entries), key) == Some(Entries(m, key) + entries)
    ensures at != key || entries == map[] ==> ObjectAt(Overlaid(m, key, entries), at) == ObjectAt(m, at)
  {
    if entries != map[] {
      OverlayGrows(Entries(m, key), entries);
    }
  }

  lemma OverlaidTwice(m: Object, key: string, a: Object, b: Object)
    ensures Overlaid(Overlaid(m, key, a), key, b) == Overlaid(m, key, a + b)
  {
    ObjectOverlaid(m, key, a, key);
    if a == map[] {
      assert a + b == b;
    } else if b == map[] {
      assert a + b == a;
    } else {
      OverlayGrows(a, b);
      assert (Entries(m, key) + a) + b == Entries(m, key) + (a + b);
    }
  }

  lemma OverlaidApart(m: Object, key: string, a: Object, key': string, b: Object)
    requires key != key'
    ensures Overlaid(Overlaid(m, key, a), key', b) == Overlaid(Overlaid(m, key', b), key, a)
  {
    ObjectOverlaid(m, key, a, key');
    ObjectOverlaid(m, key', b, key);
  }

  lemma OverlaidBesideFields(m: Object, key: string, a: Object, fields: Object)
    requires key !in fields
    ensures Overlaid(m + fields, key, a) == Overlaid(m, key, a) + fields
    ensures ObjectAt(m + fields, key) == ObjectAt(m, key)
  {
  }

  lemma FieldsInTurn(m: Object, a: Object, b: Object)
    ensures m + a + b == m + (a + b)
  {
  }

  lemma FieldsApart(d: Delta)
    requires IsDelta(d)
    ensures "node" !in d.fields && "observability" !in d.fields
  {
  }

  /** Two changes in turn are one. */
  lemma ApplyTwice(m: Object, a: Delta, b: Delta)
    requires IsDelta(a) && IsDelta(b)
    ensures Apply(Apply(m, a), b) == Apply(m, Sum(a, b))
  {
    FieldsApart(a);
    ApplyTwiceAt(m, "node", "observability", a, b);
  }

  lemma ApplyTwiceAt(m: Object, n: string, o: string, a: Delta, b: Delta)
    requires n != o && n !in a.fields && o !in a.fields
    ensures Overlaid(Overlaid(Overlaid(Overlaid(m, n, a.node), o, a.obs) + a.fields, n, b.node), o, b.obs) + b.fields
         == Overlaid(Overlaid(m, n, a.node + b.node), o, a.obs + b.obs) + (a.fields + b.fields)
  {
    var m1 := Overlaid(Overlaid(m, n, a.node), o, a.obs);
    OverlaidBesideFields(m1, n, b.node, a.fields);
    OverlaidBesideFields(Overlaid(m1, n, b.node), o, b.obs, a.fields);
    OverlaidApart(Overlaid(m, n, a.node), o, a.obs, n, b.node);
    OverlaidTwice(m, n, a.node, b.node);
    OverlaidTwice(Overlaid(m, n, a.node + b.node), o, a.obs, b.obs);
    FieldsInTurn(Overlaid(Overlaid(m, n, a.node + b.node), o, a.obs + b.obs), a.fields, b.fields);
  }

  /** The objects under the two keys after a change. */
  lemma ObjectsAfter(m: Object, d: Delta)
    requires IsDelta(d)
    ensures ObjectAt(Apply(m, d), "node")
         == if d.node == map[] then ObjectAt(m, "node") else Some(Entries(m, "node") + d.node)
    ensures ObjectAt(Apply(m, d), "observability")
         == if d.obs == map[] then ObjectAt(m, "observability") else Some(Entries(m, "observability") + d.obs)
  {
    FieldsApart(d);
    var m1 := Overlaid(m, "node", d.node);
    assert "node" != "observability";
    ObjectOverlaid(m, "node", d.node, "node");
    ObjectOverlaid(m, "node", d.node, "observability");
    ObjectOverlaid(m1, "observability", d.obs, "node");
    ObjectOverlaid(m1, "observability", d.obs, "observability");
    OverlaidBesideFields(Overlaid(m1, "observability", d.obs), "node", map[], d.fields);
    OverlaidBesideFields(Overlaid(m1, "observability", d.obs), "observability", map[], d.fields);
  }

  function NodeFieldsIfBuilt(w: World, frag: Object): Object {
    if NodeBuilt(w, frag) == map[] then map[] else NodeFields(w, frag)
  }

  function ToolsIfBuilt(w: World, frag: Object): Object {
    if ObsBuilt(w, frag) == map[] then map[] else ToolsFrom(frag, TOOLS)
  }

  lemma NodeStepIs(w: World, m: Object, frag: Object)
    ensures NodeStep(w, m, frag)
         == if TextOf(w, frag, "node_version") != "" && ObjectAt(m, "node").None? then None
            else Some(Overlaid(m, "node", NodeBuilt(w, frag)) + NodeFieldsIfBuilt(w, frag))
  {
    assert m + map[] == m;
  }

  lemma ObsStepIs(w: World, m: Object, frag: Object)
    ensures ObsStep(w, m, frag)
         == if || ObjectAt(frag, "observability").None?
               || (ObsBuilt(w, frag) != map[] && ObjectAt(m, "observability").None?)
            then None
            else Some(Overlaid(m, "observability", ObsBuilt(w, frag)) + ToolsIfBuilt(w, frag))
  {
    assert m + map[] == m;
  }

  lemma AfterNodeStep(m: Object, node: Object, fields: Object, obs: Object)
    requires "observability" !in fields
    ensures var m1 := Overlaid(m, "node", node) + fields;
            && ObjectAt(m1, "observability") == ObjectAt(m, "observability")
            && Overlaid(m1, "observability", obs) == Overlaid(Overlaid(m, "node", node), "observability", obs) + fields
  {
    assert "node" != "observability";
    ObjectOverlaid(m, "node", node, "observability");
    OverlaidBesideFields(Overlaid(m, "node", node), "observability", obs, fields);
  }

  /** One fragment is merged exactly if it fits, and then as its change says. */
  lemma StepIsApply(w: World, m: Object, frag: Object)
    ensures Step(w, m, frag) == if Fits(w, m, frag) then Some(Apply(m, DeltaOf(w, frag))) else None
  {
    var node, obs := NodeBuilt(w, frag), ObsBuilt(w, frag);
    var fields, tools := NodeFieldsIfBuilt(w, frag), ToolsIfBuilt(w, frag);
    assert DeltaOf(w, frag) == Delta(node, obs, fields + tools);
    NodeStepIs(w, m, frag);
    ObsStepIs(w, Overlaid(m, "node", node) + fields, frag);
    AfterNodeStep(m, node, fields, obs);
    FieldsInTurn(Overlaid(Overlaid(m, "node", node), "observability", obs), fields, tools);
  }

  // ----- All fragments -----

  function ReportedAll(w: World, frags: seq<Object>): set<string> {
    if frags == [] then {} else ReportedAll(w, frags[..|frags| - 1]) + Reported(w, frags[|frags| - 1])
  }

  predicate AllFit(w: World, m: Object, frags: seq<Object>) {
    forall i :: 0 <= i < |frags| ==> Fits(w, m, frags[i])
  }

  /** A change that was made of fitting fragments. */
  ghost predicate Made(m: Object, d: Delta) {
    && IsDelta(d)
    && (d.node != map[] ==> ObjectAt(m, "node").Some?)
    && (d.obs != map[] ==> ObjectAt(m, "observability").Some?)
  }

  lemma FitsAfter(w: World, m: Object, d: Delta, frag: Object)
    requires Made(m, d)
    ensures Fits(w, Apply(m, d), frag) == Fits(w, m, frag)
  {
    ObjectsAfter(m, d);
  }

  lemma DeltaIsMade(w: World, m: Object, frag: Object)
    requires Fits(w, m, frag)
    ensures Made(m, DeltaOf(w, frag))
  {
    DeltaIsDelta(w, frag);
  }

  lemma {:induction false} DeltasAreMade(w: World, m: Object, frags: seq<Object>)
    requires AllFit(w, m, frags)
    ensures Made(m, DeltaOfAll(w, frags))
  {
    if frags != [] {
      var n := |frags| - 1;
      assert Fits(w, m, frags[n]);
      assert AllFit(w, m, frags[..n]);
      DeltasAreMade(w, m, frags[..n]);
      DeltaIsMade(w, m, frags[n]);
    }
  }

  lemma ApplyNothing(m: Object)
    ensures Apply(m, NO_CHANGE) == m
  {
  }

  /** The whole fold goes through exactly if every fragment fits the manifest it starts from,
      and then it is one change. */
  lemma {:induction false} StepsAreOneChange(w: World, m: Object, frags: seq<Object>)
    ensures Steps(w, m, frags)
         == if AllFit(w, m, frags) then Some(State(Apply(m, DeltaOfAll(w, frags)), ReportedAll(w, frags))) else None
  {
    if frags == [] {
      ApplyNothing(m);
    } else {
      var n := |frags| - 1;
      var init, last := frags[..n], frags[n];
      StepsAreOneChange(w, m, init);
      assert AllFit(w, m, frags) == (AllFit(w, m, init) && Fits(w, m, last)) by { AllFitOfSnoc(w, m, frags); }
      if AllFit(w, m, init) {
        var m1, d := Apply(m, DeltaOfAll(w, init)), DeltaOf(w, last);
        DeltasAreMade(w, m, init);
        FitsAfter(w, m, DeltaOfAll(w, init), last);
        StepIsApply(w, m1, last);
        DeltaIsDelta(w, last);
        ApplyTwice(m, DeltaOfAll(w, init), d);
      }
    }
  }

  lemma AllFitOfSnoc(w: World, m: Object, frags: seq<Object>)
    requires frags != []
    ensures var n := |frags| - 1; AllFit(w, m, frags) == (AllFit(w, m, frags[..n]) && Fits(w, m, frags[n]))
  {
    var n := |frags| - 1;
    if AllFit(w, m, frags[..n]) && Fits(w, m, frags[n]) {
      forall i | 0 <= i < |frags| ensures Fits(w, m, frags[i]) {
        if i < n { assert frags[i] == frags[..n][i]; }
      }
    }
    if AllFit(w, m, frags) {
      forall i | 0 <= i < n ensures Fits(w, m, frags[..n][i]) {
        assert frags[i] == frags[..n][i];
      }
    }
  }

  // ----- Merging in two goes -----

  lemma SumAssoc(a: Delta, b: Delta, c: Delta)
    ensures Sum(Sum(a, b), c) == Sum(a, Sum(b, c))
  {
    FieldsInTurn(a.node, b.node, c.node);
    FieldsInTurn(a.obs, b.obs, c.obs);
    FieldsInTurn(a.fields, b.fields, c.fields);
  }

  lemma LastOfAppend<T>(fs: seq<T>, gs: seq<T>)
    requires gs != []
    ensures var n := |fs + gs| - 1; (fs + gs)[..n] == fs + gs[..|gs| - 1] && (fs + gs)[n] == gs[|gs| - 1]
  {
  }

  lemma {:induction false} ChangesOfAppend(w: World, fs: seq<Object>, gs: seq<Object>)
    ensures DeltaOfAll(w, fs + gs) == Sum(DeltaOfAll(w, fs), DeltaOfAll(w, gs))
    ensures ReportedAll(w, fs + gs) == ReportedAll(w, fs) + ReportedAll(w, gs)
  {
    if gs == [] {
      assert fs + gs == fs;
      NothingAdded(DeltaOfAll(w, fs));
    } else {
      var n := |gs| - 1;
      LastOfAppend(fs, gs);
      ChangesOfAppend(w, fs, gs[..n]);
      SumAssoc(DeltaOfAll(w, fs), DeltaOfAll(w, gs[..n]), DeltaOf(w, gs[n]));
    }
  }

  lemma AllFitOfAppend(w: World, m: Object, fs: seq<Object>, gs: seq<Object>)
    ensures AllFit(w, m, fs + gs) == (AllFit(w, m, fs) && AllFit(w, m, gs))
  {
    if AllFit(w, m, fs + gs) {
      forall i | 0 <= i < |fs| ensures Fits(w, m, fs[i]) { assert (fs + gs)[i] == fs[i]; }
      forall i | 0 <= i < |gs| ensures Fits(w, m, gs[i]) { assert (fs + gs)[|fs| + i] == gs[i]; }
    }
  }

  /** Nothing reported, nothing changed. */
  lemma NothingReported(w: World, frag: Object)
    requires Reported(w, frag) == {}
    ensures DeltaOf(w, frag) == NO_CHANGE
  {
    forall k ensures k !in NodeBuilt(w, frag) && k !in ObsBuilt(w, frag) {
      BuiltIsReported(w, frag, k);
    }
    assert NodeBuilt(w, frag) == map[] && ObsBuilt(w, frag) == map[];
  }

  lemma BuiltIsReported(w: World, frag: Object, k: string)
    ensures k in NodeBuilt(w, frag) ==> k in Reported(w, frag)
    ensures k in ObsBuilt(w, frag) ==> ObsBuilt(w, frag)[k].text in Reported(w, frag)
  {
  }

  lemma {:induction false} NothingReportedByAll(w: World, frags: seq<Object>)
    requires ReportedAll(w, frags) == {}
    ensures DeltaOfAll(w, frags) == NO_CHANGE
  {
    if frags != [] {
      NothingReportedByAll(w, frags[..|frags| - 1]);
      NothingReported(w, frags[|frags| - 1]);
    }
  }

  /** The time of the build is beside the rest of the manifest. */
  lemma TimeIsApart(m: Object, d: Delta, time: Json)
    requires IsDelta(d)
    ensures Apply(m["build_time" := time], d) == Apply(m, d)["build_time" := time]
    ensures ObjectAt(m["build_time" := time], "node") == ObjectAt(m, "node")
    ensures ObjectAt(m["build_time" := time], "observability") == ObjectAt(m, "observability")
  {
    assert "build_time" !in FIELDS && "build_time" != "node" && "build_time" != "observability";
    KeyIsApart(m, "build_time", time, "node", d.node);
    KeyIsApart(Overlaid(m, "node", d.node), "build_time", time, "observability", d.obs);
    KeyIsApart(m, "build_time", time, "observability", map[]);
    FieldsBesideKey(Overlaid(Overlaid(m, "node", d.node), "observability", d.obs), "build_time", time, d.fields);
  }

  lemma KeyIsApart(m: Object, other: string, j: Json, key: string, a: Object)
    requires key != other
    ensures Overlaid(m[other := j], key, a) == Overlaid(m, key, a)[other := j]
    ensures ObjectAt(m[other := j], key) == ObjectAt(m, key)
  {
  }

  lemma FieldsBesideKey(m: Object, key: string, j: Json, fields: Object)
    requires key !in fields
    ensures m[key := j] + fields == (m + fields)[key := j]
  {
  }

  lemma FitsBesideTime(w: World, m: Object, d: Delta, time: Json, frags: seq<Object>)
    requires Made(m, d)
    ensures AllFit(w, Apply(m, d)["build_time" := time], frags) == AllFit(w, m, frags)
  {
    TimeIsApart(Apply(m, d), NO_CHANGE, time);
    forall i | 0 <= i < |frags|
      ensures Fits(w, Apply(m, d)["build_time" := time], frags[i]) == Fits(w, m, frags[i])
    {
      FitsAfter(w, m, d, frags[i]);
    }
  }

  /** What a merge comes to, in closed form. */
  lemma MergeIsOneChange(w: World, existing: Object, frags: seq<Object>, now: string)
    ensures Merge(w, existing, frags, now)
         == if !AllFit(w, existing, frags) then WrongShape
            else if ReportedAll(w, frags) == {} then NothingToMerge
            else Merged(Apply(existing, DeltaOfAll(w, frags))["build_time" := Str(now)], ReportedAll(w, frags))
  {
    StepsAreOneChange(w, existing, frags);
  }

  /** Merging fragments in two goes or in one is the same, for every outcome of either go. */
  lemma MergeInTwoGoes(w: World, existing: Object, fs: seq<Object>, gs: seq<Object>, earlier: string, now: string)
    ensures Merge(w, existing, fs + gs, now) ==
      match Merge(w, existing, fs, earlier)
      case WrongShape => WrongShape
      case NothingToMerge => Merge(w, existing, gs, now)
      case Merged(first, updated) =>
        match Merge(w, first, gs, now)
        case WrongShape => WrongShape
        case NothingToMerge => Merged(first["build_time" := Str(now)], updated)
        case Merged(second, more) => Merged(second, updated + more)
  {
    MergeIsOneChange(w, existing, fs, earlier);
    MergeIsOneChange(w, existing, fs + gs, now);
    ChangesOfAppend(w, fs, gs);
    AllFitOfAppend(w, existing, fs, gs);
    if AllFit(w, existing, fs) {
      if ReportedAll(w, fs) == {} {
        NothingBefore(w, existing, fs, gs, now);
      } else {
        SomethingBefore(w, existing, fs, gs, earlier, now);
      }
    }
  }

  lemma NothingBefore(w: World, existing: Object, fs: seq<Object>, gs: seq<Object>, now: string)
    requires AllFit(w, existing, fs) && ReportedAll(w, fs) == {}
    ensures Merge(w, existing, fs + gs, now) == Merge(w, existing, gs, now)
  {
    MergeIsOneChange(w, existing, fs + gs, now);
    MergeIsOneChange(w, existing, gs, now);
    AllFitOfAppend(w, existing, fs, gs);
    ChangesOfAppend(w, fs, gs);
    assert Sum(DeltaOfAll(w, fs), DeltaOfAll(w, gs)) == DeltaOfAll(w, gs) by {
      NothingReportedByAll(w, fs);
      NothingAdded(DeltaOfAll(w, gs));
    }
  }

  lemma NothingAdded(d: Delta)
    ensures Sum(NO_CHANGE, d) == d == Sum(d, NO_CHANGE)
  {
    assert map[] + d.node == d.node && map[] + d.obs == d.obs && map[] + d.fields == d.fields;
    assert d.node + map[] == d.node && d.obs + map[] == d.obs && d.fields + map[] == d.fields;
  }

  /** The second go, started from what the first one left. */
  lemma SecondGo(w: World, existing: Object, fs: seq<Object>, gs: seq<Object>, earlier: string, now: string)
    requires AllFit(w, existing, fs)
    ensures var first := Apply(existing, DeltaOfAll(w, fs))["build_time" := Str(earlier)];
            Merge(w, first, gs, now)
            == if !AllFit(w, existing, gs) then WrongShape
               else if ReportedAll(w, gs) == {} then NothingToMerge
               else Merged(Apply(existing, DeltaOfAll(w, fs + gs))["build_time" := Str(now)], ReportedAll(w, gs))
  {
    var a, b := DeltaOfAll(w, fs), DeltaOfAll(w, gs);
    var first := Apply(existing, a)["build_time" := Str(earlier)];
    DeltasAreMade(w, existing, fs);
    DeltasAreDelta(w, gs);
    MergeIsOneChange(w, first, gs, now);
    FitsBesideTime(w, existing, a, Str(earlier), gs);
    assert DeltaOfAll(w, fs + gs) == Sum(a, b) by { ChangesOfAppend(w, fs, gs); }
    assert Apply(first, b) == Apply(existing, Sum(a, b))["build_time" := Str(earlier)] by {
      TimeIsApart(Apply(existing, a), b, Str(earlier));
      ApplyTwice(existing, a, b);
    }
    LastTimeCounts(Apply(existing, Sum(a, b)), Str(earlier), Str(now));
  }

  /** Both goes in one call, when the first has something to report. */
  lemma BothGoes(w: World, existing: Object, fs: seq<Object>, gs: seq<Object>, now: string)
    requires AllFit(w, existing, fs) && ReportedAll(w, fs) != {}
    ensures Merge(w, existing, fs + gs, now)
         == if !AllFit(w, existing, gs) then WrongShape
            else Merged(Apply(existing, DeltaOfAll(w, fs + gs))["build_time" := Str(now)],
                        ReportedAll(w, fs) + ReportedAll(w, gs))
  {
    MergeIsOneChange(w, existing, fs + gs, now);
    AllFitOfAppend(w, existing, fs, gs);
    ChangesOfAppend(w, fs, gs);
  }

  lemma SomethingBefore(w: World, existing: Object, fs: seq<Object>, gs: seq<Object>, earlier: string, now: string)
    requires AllFit(w, existing, fs) && ReportedAll(w, fs) != {}
    ensures var first := Apply(existing, DeltaOfAll(w, fs))["build_time" := Str(earlier)];
            Merge(w, existing, fs + gs, now) ==
              match Merge(w, first, gs, now)
              case WrongShape => WrongShape
              case NothingToMerge => Merged(first["build_time" := Str(now)], ReportedAll(w, fs))
              case Merged(second, more) => Merged(second, ReportedAll(w, fs) + more)
  {
    SecondGo(w, existing, fs, gs, earlier, now);
    BothGoes(w, existing, fs, gs, now);
    if AllFit(w, existing, gs) && ReportedAll(w, gs) == {} {
      SilentGo(w, fs, gs);
      LastTimeCounts(Apply(existing, DeltaOfAll(w, fs)), Str(earlier), Str(now));
    }
  }

  lemma SilentGo(w: World, fs: seq<Object>, gs: seq<Object>)
    requires ReportedAll(w, gs) == {}
    ensures DeltaOfAll(w, fs + gs) == DeltaOfAll(w, fs)
  {
    ChangesOfAppend(w, fs, gs);
    NothingReportedByAll(w, gs);
    NothingAdded(DeltaOfAll(w, fs));
  }

  lemma LastTimeCounts(m: Object, earlier: Json, now: Json)
    ensures m["build_time" := earlier]["build_time" := now] == m["build_time" := now]
  {
  }

  lemma SumWithItself(d: Delta)
    ensures Sum(d, d) == d
  {
    assert d.node + d.node == d.node && d.obs + d.obs == d.obs && d.fields + d.fields == d.fields;
  }

  /** Merging the same fragments again changes at most the time. */
  lemma MergeAgain(w: World, existing: Object, frags: seq<Object>, earlier: string, now: string)
    requires Merge(w, existing, frags, earlier).Merged?
    ensures var first := Merge(w, existing, frags, earlier);
            && Merge(w, first.manifest, frags, now) == Merge(w, existing, frags, now)
            && Merge(w, first.manifest, frags, earlier) == first
            && Merge(w, existing, frags + frags, earlier) == first
  {
    MergedAgain(w, existing, frags, earlier, now);
    MergedAgain(w, existing, frags, earlier, earlier);
    MergeInTwoGoes(w, existing, frags, frags, earlier, earlier);
    assert ReportedAll(w, frags) + ReportedAll(w, frags) == ReportedAll(w, frags);
    MergeIsOneChange(w, existing, frags, earlier);
  }

  lemma MergedAgain(w: World, existing: Object, frags: seq<Object>, earlier: string, now: string)
    requires Merge(w, existing, frags, earlier).Merged?
    ensures Merge(w, Merge(w, existing, frags, earlier).manifest, frags, now) == Merge(w, existing, frags, now)
  {
    var d := DeltaOfAll(w, frags);
    var first := Apply(existing, d)["build_time" := Str(earlier)];
    MergeIsOneChange(w, existing, frags, earlier);
    MergeIsOneChange(w, existing, frags, now);
    MergeIsOneChange(w, first, frags, now);
    DeltasAreMade(w, existing, frags);
    FitsBesideTime(w, existing, d, Str(earlier), frags);
    TimeIsApart(Apply(existing, d), d, Str(earlier));
    ApplyTwice(existing, d, d);
    SumWithItself(d);
    LastTimeCounts(Apply(existing, d), Str(earlier), Str(now));
  }
}
