/** The viewer page of pages/ModelPage.tsx: two catalogs from the relay, a
    selected source and index kept in range by an effect, an auto-switch
    countdown, and handlers that follow the controller's camera, settings
    and model selection. */
module ModelPage {
  import opened Base
  import opened Values
  import opened Relay

  const SwitchSeconds: int := 5
  const TukeModels: string := "tuke-models"

  /** The viewer's camera: position, quaternion and zoom. */
  datatype View = View(position: seq<real>, quaternion: seq<real>, zoom: real)

  /** Both catalogs, the selected source, the displayed list, the texture
      folder, the index, the loading flag, the auto-switch flag, the
      countdown, the camera, and the model URLs of `model_uploaded` events
      whose `files_list` reply is still awaited. */
  datatype State = State(tuke: seq<Entry>, user: seq<Entry>, source: Value, currentList: seq<Entry>,
                         textureFolder: Value, index: int, loading: bool, autoSwitch: Value,
                         countdown: int, view: View, uploadWaiters: seq<string>)

  function Initial(view: View): State
  {
    State([], [], Str("userModels"), [], Str("grass"), 0, true, Bool(true), SwitchSeconds, view, [])
  }

  /** The catalog a source names: the curated one only for exactly
      "tuke-models". */
  function ActiveList(tuke: seq<Entry>, user: seq<Entry>, source: Value): (l: seq<Entry>)
    ensures source == Str(TukeModels) ==> l == tuke
    ensures source != Str(TukeModels) ==> l == user
  {
    if source == Str(TukeModels) then tuke else user
  }

  /** The effect on `[activeModelSource, currentModelIndex, tukeModels,
      userModels]`: show the selected catalog and reset an index at or past
      its end to 0. */
  function Normalize(s: State): (r: State)
    ensures r.currentList == ActiveList(s.tuke, s.user, s.source)
    ensures s.index >= |r.currentList| ==> r.index == 0
    ensures s.index < |r.currentList| ==> r.index == s.index
    ensures r.(currentList := s.currentList, index := s.index) == s
  {
    var l := ActiveList(s.tuke, s.user, s.source);
    s.(currentList := l, index := if s.index >= |l| then 0 else s.index)
  }

  /** Running the effect twice changes nothing more. */
  lemma NormalizeIdempotent(s: State)
    ensures Normalize(Normalize(s)) == Normalize(s)
  {
  }

  /** The page's invariant: the displayed list is the selected catalog, the
      index is a position in it (or 0 for an empty one), and the countdown
      is between 1 and 5. */
  predicate Inv(s: State)
  {
    && s.currentList == ActiveList(s.tuke, s.user, s.source)
    && 0 <= s.index
    && (s.index < |s.currentList| || s.index == 0)
    && 1 <= s.countdown <= SwitchSeconds
  }

  /** JavaScript `a % n` for `n > 0`: the sign follows the dividend. */
  function JsRem(a: int, n: int): (r: int)
    requires n > 0
    ensures a >= 0 ==> 0 <= r < n && r == a % n
    ensures a < 0 ==> -n < r <= 0
  {
    if a >= 0 then a % n else -((-a) % n)
  }

  /** One second of the auto-switch interval, which exists only while more
      than one model is listed and auto-switch is on. */
  function Tick(s: State): (r: State)
    ensures !(|s.currentList| > 1 && Truthy(s.autoSwitch)) ==> r == s
    ensures |s.currentList| > 1 && Truthy(s.autoSwitch) && s.countdown > 1 ==>
              r == s.(countdown := s.countdown - 1)
    ensures |s.currentList| > 1 && Truthy(s.autoSwitch) && s.countdown <= 1 ==>
              r == s.(countdown := SwitchSeconds, index := JsRem(s.index + 1, |s.currentList|))
    ensures |s.currentList| > 1 && Truthy(s.autoSwitch) && s.countdown <= 1 && s.index >= -1 ==>
              0 <= r.index < |s.currentList|
  {
    if |s.currentList| > 1 && Truthy(s.autoSwitch) then
      if s.countdown <= 1 then s.(countdown := SwitchSeconds, index := JsRem(s.index + 1, |s.currentList|))
      else s.(countdown := s.countdown - 1)
    else s
  }

  function Ticks(s: State, k: nat): State
  {
    if k == 0 then s else Tick(Ticks(s, k - 1))
  }

  /** With auto-switch on and several models, the index is unchanged for
      `countdown - 1` seconds and moves to the next model, wrapping, on the
      `countdown`-th, when the countdown starts again from 5. */
  lemma {:induction false} SwitchAfterCountdown(s: State, k: nat)
    requires Inv(s) && |s.currentList| > 1 && Truthy(s.autoSwitch)
    requires k <= s.countdown
    ensures k < s.countdown ==> Ticks(s, k) == s.(countdown := s.countdown - k)
    ensures k == s.countdown ==>
              Ticks(s, k).index == (s.index + 1) % |s.currentList| && Ticks(s, k).countdown == SwitchSeconds
  {
    if k > 0 {
      SwitchAfterCountdown(s, k - 1);
    }
  }

  /** Component `i` of a spread argument list, or the parameter's default
      `d` when the list is too short. */
  function Arg(xs: seq<real>, i: nat, d: real): real
  {
    if i < |xs| then xs[i] else d
  }

  /** `new THREE.Vector3(...xs)`: the first three components, a missing one
      taking the constructor's default 0; extra components are dropped. */
  function Vector3Of(xs: seq<real>): (v: seq<real>)
    ensures |v| == 3
    ensures forall i :: 0 <= i < 3 ==> v[i] == (if i < |xs| then xs[i] else 0.0)
    ensures |xs| >= 3 ==> v == xs[..3]
  {
    [Arg(xs, 0, 0.0), Arg(xs, 1, 0.0), Arg(xs, 2, 0.0)]
  }

  /** `new THREE.Quaternion(...xs)`: the first four components, a missing
      x, y or z taking 0 and a missing w taking 1. */
  function QuaternionOf(xs: seq<real>): (q: seq<real>)
    ensures |q| == 4
    ensures forall i :: 0 <= i < 3 ==> q[i] == (if i < |xs| then xs[i] else 0.0)
    ensures q[3] == (if 3 < |xs| then xs[3] else 1.0)
    ensures |xs| >= 4 ==> q == xs[..4]
  {
    [Arg(xs, 0, 0.0), Arg(xs, 1, 0.0), Arg(xs, 2, 0.0), Arg(xs, 3, 1.0)]
  }

  /** `camera_update`: position and quaternion are rebuilt as a
      `THREE.Vector3` and a `THREE.Quaternion` from the sent arrays and
      copied into the camera; the zoom only when the event carries one. */
  function ApplyCamera(v: View, position: seq<real>, rotation: seq<real>, zoom: Option<real>): (r: View)
    ensures |r.position| == 3 && |r.quaternion| == 4
    ensures r.position == Vector3Of(position) && r.quaternion == QuaternionOf(rotation)
    ensures zoom.Some? ==> r.zoom == zoom.value
    ensures zoom.None? ==> r.zoom == v.zoom
  {
    View(Vector3Of(position), QuaternionOf(rotation), if zoom.Some? then zoom.value else v.zoom)
  }

  /** A camera event published from a controller camera, whose `toArray()`
      vectors have three and four components, leaves the viewer's camera
      equal to it. */
  lemma MirrorsController(v: View, c: Camera)
    requires Sampled(c)
    ensures var r := ApplyCamera(v, c.position, c.quaternion, Some(c.zoom));
            r.position == c.position && r.quaternion == c.quaternion && r.zoom == c.zoom
  {
  }

  datatype Input =
    | Mount
    | ModelUploaded(modelUrl: string)
    | FilesList(tukeModels: seq<Entry>, userModels: seq<Entry>)
    | Second
    | CameraEvent(position: seq<real>, rotation: seq<real>, zoom: Option<real>)
    | SettingsEvent(data: map<string, Value>)
    | ModelSettingsEvent(activeModelSource: Value, currentModelIndex: int)

  /** The position of `url` in `list` that the pending once-listeners of
      `uploads` settle on: the last one found wins; none found keeps `index`. */
  function Relocate(list: seq<Entry>, uploads: seq<string>, index: int): (r: int)
    ensures r == index || (0 <= r < |list| && exists k :: 0 <= k < |uploads| && list[r].url == uploads[k])
  {
    if |uploads| == 0 then index
    else
      var found := FindIndex(list, (m: Entry) => m.url == uploads[|uploads| - 1]);
      if found != -1 then found else Relocate(list, uploads[..|uploads| - 1], index)
  }

  /** A socket event or timer second, before the page's effects run. */
  function Handle(s: State, e: Input): (r: (State, seq<Emit>))
    ensures e.ModelUploaded? ==>
              r.0 == s.(autoSwitch := Bool(false), uploadWaiters := s.uploadWaiters + [e.modelUrl]) && r.1 == [GetFiles]
    ensures e.FilesList? ==>
              r.0.tuke == e.tukeModels && r.0.user == e.userModels && !r.0.loading && r.0.uploadWaiters == []
              && r.0.index == Relocate(s.currentList, s.uploadWaiters, s.index)
    ensures e.SettingsEvent? ==>
              r.0 == s.(autoSwitch := Lookup(e.data, "autoSwitch"), textureFolder := Lookup(e.data, "txtrFolder"))
    ensures e.CameraEvent? ==> r.0 == s.(view := ApplyCamera(s.view, e.position, e.rotation, e.zoom))
    ensures e.ModelSettingsEvent? ==>
              var l := ActiveList(s.tuke, s.user, e.activeModelSource);
              r.0.source == e.activeModelSource
              && r.0.index == (if e.currentModelIndex >= |l| then 0 else e.currentModelIndex)
    ensures e.Second? ==> r.0 == Tick(s)
    ensures !e.Mount? && !e.ModelUploaded? ==> r.1 == []
  {
    match e
    case Mount => (s, [GetFiles])
    case ModelUploaded(url) =>
      (s.(autoSwitch := Bool(false), uploadWaiters := s.uploadWaiters + [url]), [GetFiles])
    case FilesList(tuke, user) =>
      (s.(tuke := tuke, user := user, currentList := user, loading := false, uploadWaiters := [],
          index := Relocate(s.currentList, s.uploadWaiters, s.index)), [])
    case Second => (Tick(s), [])
    case CameraEvent(p, q, z) => (s.(view := ApplyCamera(s.view, p, q, z)), [])
    case SettingsEvent(data) =>
      (s.(autoSwitch := Lookup(data, "autoSwitch"), textureFolder := Lookup(data, "txtrFolder")), [])
    case ModelSettingsEvent(source, i) =>
      var l := ActiveList(s.tuke, s.user, source);
      (s.(source := source, index := if i >= |l| then 0 else i), [])
  }

  /** One input: the handler, the range effect, then `model_switch` with
      the new index whenever the index changed (and once on mount). */
  function Step(s: State, e: Input): (r: (State, seq<Emit>))
    ensures r.0 == Normalize(Handle(s, e).0)
    ensures ModelSwitch(r.0.index) in r.1 <==> e.Mount? || r.0.index != s.index
    ensures forall ev :: ev in r.1 ==> ev == GetFiles || ev == ModelSwitch(r.0.index)
  {
    var h := Handle(s, e);
    var t := Normalize(h.0);
    (t, h.1 + if e.Mount? || t.index != s.index then [ModelSwitch(t.index)] else [])
  }

  /** Every input except a model selection with a negative index keeps the
      invariant. */
  lemma StepKeepsInv(s: State, e: Input)
    requires Inv(s)
    requires e.ModelSettingsEvent? ==> e.currentModelIndex >= 0
    ensures Inv(Step(s, e).0)
  {
    var h := Handle(s, e).0;
    if e.FilesList? {
      assert h.index == s.index || 0 <= h.index;
    }
  }

  /** The excluded input: a negative index is stored as sent and the range
      effect does not repair it, so the invariant's lower bound fails. */
  lemma NegativeIndexKept(s: State, source: Value, i: int)
    requires Inv(s) && i < 0
    ensures Step(s, ModelSettingsEvent(source, i)).0.index == i
    ensures !Inv(Step(s, ModelSettingsEvent(source, i)).0)
  {
  }

  lemma InitialInv(v: View)
    ensures Inv(Initial(v))
  {
  }

  /** The URL handed to the model loader, if any: only when loaded, the
      list is non-empty and the index names an entry. */
  function Rendered(s: State): (url: Option<string>)
    ensures url.Some? ==> !s.loading && 0 <= s.index < |s.currentList| && url.value == s.currentList[s.index].url
    ensures url.None? ==> s.loading || !(0 <= s.index < |s.currentList|)
  {
    if !s.loading && |s.currentList| > 0 && 0 <= s.index < |s.currentList| then Some(s.currentList[s.index].url)
    else None
  }

  /** Under the invariant a loaded page with a non-empty list always shows
      a model. */
  lemma LoadedPageShowsModel(s: State)
    requires Inv(s) && !s.loading && |s.currentList| > 0
    ensures Rendered(s) == Some(s.currentList[s.index].url)
  {
  }

  /** An upload whose URL is in the displayed list when the reply arrives
      moves the index to it; otherwise the index stays. */
  lemma UploadSelectsItsModel(s: State, url: string, tuke: seq<Entry>, user: seq<Entry>)
    requires s.uploadWaiters == []
    ensures var a := Handle(s, ModelUploaded(url)).0;
            var b := Handle(a, FilesList(tuke, user)).0;
            var found := FindIndex(s.currentList, (m: Entry) => m.url == url);
            (found != -1 ==> b.index == found && s.currentList[found].url == url)
            && (found == -1 ==> b.index == s.index)
            && b.autoSwitch == Bool(false)
  {
    var a := Handle(s, ModelUploaded(url)).0;
    assert a.uploadWaiters == [url];
    assert a.uploadWaiters[..0] == [];
  }
}
