/** Loading one model for the viewer (components/model/Model.tsx): the
    loader chosen by the URL's suffix, the `active` guard that drops late
    results, and the ground textures probed in the bucket. The three.js
    loaders and the bounding-box scaling are not modelled: a load either
    fails or yields the object, tagged with whether it was rescaled. */
module ModelLoader {
  import opened Base
  import UploadValidation

  datatype Kind = Gltf | Stl | Obj | Fbx

  /** The load effect's `if … else if …` chain on the URL. Some loader
      takes exactly the names the upload picker accepts, and the glTF loader
      exactly those the older picker accepts. */
  function LoaderFor(url: string): (r: Option<Kind>)
    ensures r.Some? <==> UploadValidation.HasModelExtension(url)
    ensures r == Some(Gltf) <==> UploadValidation.IsGltf(url)
  {
    if EndsWith(url, ".gltf") || EndsWith(url, ".glb") then Some(Gltf)
    else if EndsWith(url, ".stl") then Some(Stl)
    else if EndsWith(url, ".obj") then Some(Obj)
    else if EndsWith(url, ".fbx") then Some(Fbx)
    else None
  }

  /** The same dispatch written as a table, matched top to bottom. */
  const SuffixTable: seq<(string, Kind)> :=
    [(".gltf", Gltf), (".glb", Gltf), (".stl", Stl), (".obj", Obj), (".fbx", Fbx)]

  /** The kind of the first table row whose suffix ends the URL. */
  function FirstMatch(url: string, table: seq<(string, Kind)>): (r: Option<Kind>)
    ensures r.None? <==> forall i :: 0 <= i < |table| ==> !EndsWith(url, table[i].0)
    ensures r.Some? ==> exists i :: 0 <= i < |table| && EndsWith(url, table[i].0) && table[i].1 == r.value
                                    && forall j :: 0 <= j < i ==> !EndsWith(url, table[j].0)
  {
    var i := FindIndex(table, (row: (string, Kind)) => EndsWith(url, row.0));
    if i == -1 then None else Some(table[i].1)
  }

  /** The loader chosen is the first row of the table that matches. */
  lemma DispatchIsFirstMatch(url: string)
    ensures LoaderFor(url) == FirstMatch(url, SuffixTable)
  {
    var t := SuffixTable;
    assert t[0].0 == ".gltf" && t[1].0 == ".glb" && t[2].0 == ".stl" && t[3].0 == ".obj" && t[4].0 == ".fbx";
    var r := FirstMatch(url, t);
    if r.Some? {
      var i :| 0 <= i < |t| && EndsWith(url, t[i].0) && t[i].1 == r.value
               && forall j :: 0 <= j < i ==> !EndsWith(url, t[j].0);
      assert i == 0 || i == 1 || i == 2 || i == 3 || i == 4;
    }
  }

  /** No URL ends in two of the suffixes, so the order of the tests never
      decides between two loaders. */
  lemma SuffixesExclusive(url: string, i: nat, j: nat)
    requires i < j < |SuffixTable|
    requires EndsWith(url, SuffixTable[i].0)
    ensures !EndsWith(url, SuffixTable[j].0)
  {
    var a := SuffixTable[i].0;
    assert url[|url| - 1] == a[|a| - 1];
  }

  /** A loaded model; `scaled` records whether `processModel` or
      `processGeometry` was applied (GLTF and STL) or not (OBJ and FBX). */
  datatype Loaded = Loaded(kind: Kind, url: string, scaled: bool)

  /** One run of the load effect for one URL and its `active` flag. */
  datatype LoadRun = LoadRun(url: string, active: bool)

  /** A load of `run` settles: `ok` is false when the loader threw. */
  function Settle(model: Option<Loaded>, run: LoadRun, ok: bool): (r: Option<Loaded>)
    ensures !run.active ==> r == model
    ensures !ok ==> r == model
    ensures LoaderFor(run.url).None? ==> r == model
    ensures r != model ==> r.Some? && r.value.url == run.url && Some(r.value.kind) == LoaderFor(run.url)
    ensures run.active && ok && LoaderFor(run.url).Some? ==>
              r == Some(Loaded(LoaderFor(run.url).value, run.url, LoaderFor(run.url).value in {Gltf, Stl}))
  {
    match LoaderFor(run.url)
    case None => model
    case Some(k) =>
      if !ok || !run.active then model
      else Some(Loaded(k, run.url, k == Gltf || k == Stl))
  }

  /** The component: the model it shows and every run of the load effect,
      the latest last. */
  datatype Component = Component(model: Option<Loaded>, runs: seq<LoadRun>)

  function Mount(url: string): Component
  {
    Component(None, [LoadRun(url, true)])
  }

  /** The URL prop changes: the cleanup clears `active` on earlier runs and
      a new run starts. The model shown so far stays until replaced. */
  function ChangeUrl(c: Component, url: string): (r: Component)
    ensures r.model == c.model && |r.runs| == |c.runs| + 1
    ensures r.runs[|c.runs|] == LoadRun(url, true)
    ensures forall i :: 0 <= i < |c.runs| ==> r.runs[i] == c.runs[i].(active := false)
  {
    Component(c.model, seq(|c.runs|, i requires 0 <= i < |c.runs| => c.runs[i].(active := false)) + [LoadRun(url, true)])
  }

  /** The load started by run `i` settles. */
  function Resolve(c: Component, i: nat, ok: bool): Component
    requires i < |c.runs|
  {
    c.(model := Settle(c.model, c.runs[i], ok))
  }

  /** Only the latest run may still be active, and the model shown was
      produced by the loader its URL's suffix selects. */
  ghost predicate Valid(c: Component)
  {
    && |c.runs| > 0
    && (forall i :: 0 <= i < |c.runs| - 1 ==> !c.runs[i].active)
    && (c.model.Some? ==> LoaderFor(c.model.value.url) == Some(c.model.value.kind))
  }

  lemma MountValid(url: string)
    ensures Valid(Mount(url))
  {
  }

  lemma ChangeUrlValid(c: Component, url: string)
    requires Valid(c)
    ensures Valid(ChangeUrl(c, url))
  {
  }

  /** A result that arrives after its run was cleaned up never replaces the
      model: only the latest URL can be shown next. */
  lemma StaleResultIgnored(c: Component, i: nat, ok: bool)
    requires Valid(c)
    requires i < |c.runs| - 1
    ensures Resolve(c, i, ok) == c
  {
  }

  lemma ResolveValid(c: Component, i: nat, ok: bool)
    requires Valid(c) && i < |c.runs|
    ensures Valid(Resolve(c, i, ok))
    ensures Resolve(c, i, ok).model != c.model ==> i == |c.runs| - 1
  {
  }

  /** `if (!model) return null`: what the component renders. */
  function Rendered(c: Component): (m: Option<Loaded>)
    requires Valid(c)
    ensures m.Some? ==> LoaderFor(m.value.url) == Some(m.value.kind)
    ensures m.None? <==> c.model.None?
  {
    c.model
  }

  // ----- ground textures -----

  const TextureBucket: string := "https://3d-web-models-bucket.s3.eu-west-1.amazonaws.com/"

  /** The `textureFolder` prop, defaulting to "grass" when absent. */
  function EffectiveFolder(prop: Option<string>): (f: string)
    ensures prop.None? ==> f == "grass"
    ensures prop.Some? ==> f == prop.value
  {
    if prop.Some? then prop.value else "grass"
  }

  function TextureUrl(folder: string, filename: string): string
  {
    TextureBucket + "textures/" + folder + "/" + filename
  }

  /** Material key and the file names tried for it, in order. */
  const TextureFiles: seq<(string, seq<string>)> := [
    ("map", ["color.jpg"]),
    ("normalMap", ["nrml.jpg"]),
    ("roughnessMap", ["rough.jpg"]),
    ("aoMap", ["ao.jpg"]),
    ("displacementMap", ["disp.jpg", "disp.tiff"]),
    ("metalnessMap", ["metal.jpg"])
  ]

  /** `loadTextureIfExists` for one key: the position of the first
      candidate whose fetch answers OK and whose texture loads
      (`available` holds those URLs); the loop stops there. */
  function FirstAvailable(folder: string, candidates: seq<string>, available: set<string>): (k: Option<nat>)
    ensures k.None? <==> forall i :: 0 <= i < |candidates| ==> TextureUrl(folder, candidates[i]) !in available
    ensures k.Some? ==> k.value < |candidates| && TextureUrl(folder, candidates[k.value]) in available
    ensures k.Some? ==> forall j :: 0 <= j < k.value ==> TextureUrl(folder, candidates[j]) !in available
  {
    var i := FindIndex(candidates, (c: string) => TextureUrl(folder, c) in available);
    if i == -1 then None else Some(i)
  }

  /** The URL of the texture kept for one key, if any. */
  function LoadedUrl(folder: string, candidates: seq<string>, available: set<string>): Option<string>
  {
    match FirstAvailable(folder, candidates, available)
    case None => None
    case Some(k) => Some(TextureUrl(folder, candidates[k]))
  }

  /** The keys of a texture table. */
  function Keys(entries: seq<(string, seq<string>)>): set<string>
  {
    set i | 0 <= i < |entries| :: entries[i].0
  }

  /** `loadedTextures`, filled key by key in table order: the URL kept for
      each key; keys with no loadable candidate are absent. */
  function LoadTextures(folder: string, entries: seq<(string, seq<string>)>, available: set<string>): (m: map<string, string>)
    requires forall i, j :: 0 <= i < j < |entries| ==> entries[i].0 != entries[j].0
    ensures m.Keys <= Keys(entries)
    ensures forall i :: 0 <= i < |entries| ==> Get(m, entries[i].0) == LoadedUrl(folder, entries[i].1, available)
  {
    if |entries| == 0 then map[]
    else
      var n := |entries| - 1;
      var init := entries[..n];
      var m := LoadTextures(folder, init, available);
      var u := LoadedUrl(folder, entries[n].1, available);
      assert forall i :: 0 <= i < n ==> init[i] == entries[i] && entries[i].0 != entries[n].0;
      assert entries[n].0 !in Keys(init);
      assert Keys(entries) == Keys(init) + {entries[n].0};
      if u.Some? then m[entries[n].0 := u.value] else m
  }

  lemma TextureKeysDistinct()
    ensures forall i, j :: 0 <= i < j < |TextureFiles| ==> TextureFiles[i].0 != TextureFiles[j].0
  {
  }

  /** The displacement map prefers `disp.jpg` and falls back to `disp.tiff`. */
  lemma DisplacementPrefersJpg(folder: string, available: set<string>)
    ensures var jpg, tiff := TextureUrl(folder, "disp.jpg"), TextureUrl(folder, "disp.tiff");
            Get(LoadTextures(folder, TextureFiles, available), "displacementMap")
              == if jpg in available then Some(jpg) else if tiff in available then Some(tiff) else None
  {
    TextureKeysDistinct();
    var t := TextureFiles;
    var c := ["disp.jpg", "disp.tiff"];
    assert t[4] == ("displacementMap", c);
    var k := FirstAvailable(folder, c, available);
    if TextureUrl(folder, "disp.jpg") in available {
      assert k == Some(0);
    } else if TextureUrl(folder, "disp.tiff") in available {
      assert k == Some(1);
    }
  }

}
