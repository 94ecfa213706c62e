/** The earlier viewer of pages/ModelPage2.tsx: a list of glTF URLs taken
    from `files_list`, a 20-second rotation through it, and a camera that
    follows `camera_update`. */
module ModelPage2 {
  import opened Base
  import opened Relay
  import opened UploadValidation

  /** The URLs of the .glb/.gltf entries, in list order. */
  function GltfUrls(list: seq<Asset>): (urls: seq<string>)
    ensures |urls| <= |list|
    ensures forall k :: 0 <= k < |urls| ==>
              exists i :: 0 <= i < |list| && IsGltf(list[i].name) && list[i].url == urls[k]
  {
    if |list| == 0 then []
    else
      var last := list[|list| - 1];
      GltfUrls(list[..|list| - 1]) + (if IsGltf(last.name) then [last.url] else [])
  }

  /** Filtering distributes over concatenation, so the URLs keep the
      list's order. */
  lemma {:induction false} GltfUrlsAppend(a: seq<Asset>, b: seq<Asset>)
    ensures GltfUrls(a + b) == GltfUrls(a) + GltfUrls(b)
  {
    if |b| == 0 {
      assert a + b == a;
    } else {
      var b0 := b[..|b| - 1];
      assert (a + b)[..|a + b| - 1] == a + b0;
      GltfUrlsAppend(a, b0);
    }
  }

  /** A URL is kept exactly when some .glb/.gltf entry carries it. */
  lemma {:induction false} GltfUrlsMembership(list: seq<Asset>, u: string)
    ensures u in GltfUrls(list) <==> exists i :: 0 <= i < |list| && IsGltf(list[i].name) && list[i].url == u
  {
    if |list| > 0 {
      var init := list[..|list| - 1];
      GltfUrlsMembership(init, u);
      if exists i :: 0 <= i < |init| && IsGltf(init[i].name) && init[i].url == u {
        var i :| 0 <= i < |init| && IsGltf(init[i].name) && init[i].url == u;
        assert list[i] == init[i];
      }
      if exists i :: 0 <= i < |list| && IsGltf(list[i].name) && list[i].url == u {
        var i :| 0 <= i < |list| && IsGltf(list[i].name) && list[i].url == u;
        if i < |init| {
          assert init[i] == list[i];
        }
      }
    }
  }

  /** The camera position; x or y is none when it was set to `undefined`.
      `Vector3.set` never leaves z undefined. */
  datatype Position = Position(x: Option<real>, y: Option<real>, z: real)

  /** The URL list, the index, the loading flag, and the camera. */
  datatype State = State(models: seq<string>, index: nat, loading: bool,
                         position: Position, quaternion: seq<real>)

  function Initial(position: Position, quaternion: seq<real>): State
  {
    State([], 0, true, position, quaternion)
  }

  /** `files_list` (absent or present): a missing or empty list, or one
      without a glTF entry, changes nothing; otherwise the URLs replace the
      list and loading ends. The index is left as it was. */
  function OnFilesList(s: State, fileList: Option<seq<Asset>>): (r: State)
    ensures fileList.None? || fileList.value == [] || GltfUrls(fileList.value) == [] ==> r == s
    ensures fileList.Some? && GltfUrls(fileList.value) != [] ==>
              r == s.(models := GltfUrls(fileList.value), loading := false)
  {
    if fileList.None? || fileList.value == [] then s
    else
      var urls := GltfUrls(fileList.value);
      if |urls| > 0 then s.(models := urls, loading := false) else s
  }

  /** One 20-second interval: only scheduled with more than one model. */
  function Rotate(s: State): (r: State)
    ensures |s.models| <= 1 ==> r == s
    ensures |s.models| > 1 ==> r == s.(index := (s.index + 1) % |s.models|)
    ensures |s.models| > 1 ==> r.index < |s.models|
  {
    if |s.models| > 1 then s.(index := (s.index + 1) % |s.models|) else s
  }

  /** `position.set(...xs)` on the position `prev`: the three parameters
      take the first three components and extra ones are dropped; a missing
      x or y becomes `undefined` (none), while a missing z keeps the previous z
      (`Vector3.set` replaces an undefined z by `this.z`). */
  function SetVector3(prev: Position, xs: seq<real>): (v: Position)
    ensures v.x.Some? <==> |xs| > 0
    ensures v.y.Some? <==> |xs| > 1
    ensures |xs| > 0 ==> v.x == Some(xs[0])
    ensures |xs| > 1 ==> v.y == Some(xs[1])
    ensures |xs| > 2 ==> v.z == xs[2]
    ensures |xs| <= 2 ==> v.z == prev.z
  {
    Position(if 0 < |xs| then Some(xs[0]) else None,
             if 1 < |xs| then Some(xs[1]) else None,
             if 2 < |xs| then xs[2] else prev.z)
  }

  /** `camera_update`: the position always, the quaternion only when the
      rotation has exactly four components. */
  function OnCamera(s: State, position: seq<real>, rotation: seq<real>): (r: State)
    ensures r.position == SetVector3(s.position, position)
    ensures |rotation| == 4 ==> r.quaternion == rotation
    ensures |rotation| != 4 ==> r.quaternion == s.quaternion
    ensures r.models == s.models && r.index == s.index && r.loading == s.loading
  {
    s.(position := SetVector3(s.position, position), quaternion := if |rotation| == 4 then rotation else s.quaternion)
  }

  /** A camera published from a controller, with `toArray()`'s three and
      four components, sets every position component and the quaternion. */
  lemma MirrorsController(s: State, c: Camera)
    requires Sampled(c)
    ensures var r := OnCamera(s, c.position, c.quaternion);
            r.position == Position(Some(c.position[0]), Some(c.position[1]), c.position[2])
            && r.quaternion == c.quaternion
  {
  }

  /** What the canvas shows: the placeholder box, or the loader given
      `models[index]`, which is `undefined` (none) past the list's end. */
  datatype Scene = Placeholder | Loader(url: Option<string>)

  function Rendered(s: State): (sc: Scene)
    ensures sc.Loader? <==> !s.loading && |s.models| > 0
    ensures sc.Loader? && s.index < |s.models| ==> sc.url == Some(s.models[s.index])
  {
    if !s.loading && |s.models| > 0 then
      Loader(if s.index < |s.models| then Some(s.models[s.index]) else None)
    else Placeholder
  }

  /** A shorter list arriving after the rotation has moved on leaves the
      index past its end, and the loader is handed `undefined`. */
  lemma ShorterListOutrunsIndex()
    ensures var s := State(["a.glb", "b.glb", "c.glb"], 2, false, Position(Some(0.0), Some(0.0), 5.0), []);
            var r := OnFilesList(s, Some([Asset("a.glb", "a.glb")]));
            r.index == 2 && |r.models| == 1 && Rendered(r) == Loader(None)
  {
    var l := [Asset("a.glb", "a.glb")];
    assert l[..0] == [];
    assert EndsWith("a.glb", ".glb");
    assert GltfUrls(l) == ["a.glb"];
  }

  /** The same handler with the index brought back into the new list. */
  function OnFilesListClamped(s: State, fileList: Option<seq<Asset>>): (r: State)
    ensures r.models == OnFilesList(s, fileList).models && r.loading == OnFilesList(s, fileList).loading
    ensures r.models != s.models ==> r.index == (if s.index < |r.models| then s.index else 0)
    ensures r.models == s.models ==> r.index == s.index
  {
    var t := OnFilesList(s, fileList);
    if t.models != s.models then t.(index := if s.index < |t.models| then s.index else 0) else t
  }

  /** The index names an entry whenever there are entries. */
  predicate InRange(s: State)
  {
    s.index < |s.models| || s.index == 0
  }

  datatype Input =
    | FilesList(fileList: Option<seq<Asset>>)
    | Interval
    | CameraEvent(position: seq<real>, rotation: seq<real>)

  function StepClamped(s: State, e: Input): State
  {
    match e
    case FilesList(l) => OnFilesListClamped(s, l)
    case Interval => Rotate(s)
    case CameraEvent(p, q) => OnCamera(s, p, q)
  }

  /** With the clamped handler the index stays in range, so a loaded page
      always hands the loader a URL from the list. */
  lemma ClampedKeepsInRange(s: State, e: Input)
    requires InRange(s)
    ensures InRange(StepClamped(s, e))
    ensures var r := StepClamped(s, e);
            Rendered(r).Loader? ==> Rendered(r).url == Some(r.models[r.index])
  {
  }

  lemma InitialInRange(position: Position, quaternion: seq<real>)
    ensures InRange(Initial(position, quaternion))
  {
  }
}
