/** The controller page of pages/ControlPage.tsx: control arbitration, a
    per-frame camera publisher, the auto-change and orbit toggles published
    as `settings_update`, and the upload modal with the older picker. Each
    socket event, user action and render frame is an input; a step returns
    the new page state and the events emitted, in order. */
module ControlPage {
  import opened Base
  import opened Values
  import opened Relay
  import opened UploadValidation
  import A = Arbitration
  import H = Handshake

  datatype State = State(arbiter: A.Arbiter, autoChange: bool, enableZoom: bool, enablePan: bool,
                         picker: LegacyPicker, upload: H.Upload)

  const Initial: State := State(A.Initial, true, false, false, InitialLegacyPicker, H.Idle)

  /** The three checkboxes of the page. */
  datatype Setting = AutoChange | Zoom | Pan

  /** Actions inside the upload modal. */
  datatype ModalAction =
    | ChooseFile(selected: Option<File>)
    | PressUpload
    | PresignedUrl(fileName: string, putOk: bool)
    | PresignedUrlError(message: string)
    | CloseModal

  datatype Input =
    | Arbitrate(signal: A.Signal)
    | Frame(camera: Option<Camera>)
    | Flip(setting: Setting)
    | Modal(action: ModalAction)

  /** The `{ autoChange, orbitControls }` payload. */
  function SettingsPayload(s: State): Value
  {
    Obj(map["autoChange" := Bool(s.autoChange),
            "orbitControls" := Obj(map["enableZoom" := Bool(s.enableZoom), "enablePan" := Bool(s.enablePan)])])
  }

  /** The effect on `[autoChange, orbitControls]`: publish only in control. */
  function SettingsEffect(s: State): (out: seq<Emit>)
    ensures out != [] <==> s.arbiter.hasControl
    ensures out != [] ==> out == [SettingsUpdate(SettingsPayload(s))]
  {
    if s.arbiter.hasControl then [SettingsUpdate(SettingsPayload(s))] else []
  }

  /** Mount, grant and denial. On mount the settings effect runs first (it
      belongs to a child component), then the page asks for control. */
  function OnSignal(s: State, sig: A.Signal): (r: (State, seq<Emit>))
    ensures r.0 == s.(arbiter := A.React(s.arbiter, sig).0)
    ensures Count(r.1, RequestControl) == Count(A.React(s.arbiter, sig).1, RequestControl)
    ensures forall ev :: ev in r.1 && Gated(ev) ==> r.0.arbiter.hasControl
  {
    var a := A.React(s.arbiter, sig);
    if sig.Mounted? then
      CountAppend(SettingsEffect(s), a.1, RequestControl);
      (s.(arbiter := a.0), SettingsEffect(s) + a.1)
    else (s.(arbiter := a.0), [])
  }

  /** One render frame of the camera publisher: no zoom, no change detection. */
  function OnFrame(s: State, camera: Option<Camera>): (out: seq<Emit>)
    ensures out != [] <==> s.arbiter.hasControl && camera.Some?
    ensures out != [] ==> out == [CameraUpdate(camera.value.position, camera.value.quaternion, None)]
  {
    if s.arbiter.hasControl && camera.Some? then
      [CameraUpdate(camera.value.position, camera.value.quaternion, None)]
    else []
  }

  /** Toggling a checkbox flips exactly that flag; in control the new
      settings are published. */
  function OnFlip(s: State, setting: Setting): (r: (State, seq<Emit>))
    ensures r.0.arbiter == s.arbiter && r.0.picker == s.picker && r.0.upload == s.upload
    ensures r.0.autoChange == (if setting.AutoChange? then !s.autoChange else s.autoChange)
    ensures r.0.enableZoom == (if setting.Zoom? then !s.enableZoom else s.enableZoom)
    ensures r.0.enablePan == (if setting.Pan? then !s.enablePan else s.enablePan)
    ensures r.1 != [] <==> s.arbiter.hasControl
    ensures r.1 != [] ==> r.1 == [SettingsUpdate(SettingsPayload(r.0))]
  {
    var t := match setting
      case AutoChange => s.(autoChange := !s.autoChange)
      case Zoom => s.(enableZoom := !s.enableZoom)
      case Pan => s.(enablePan := !s.enablePan);
    (t, SettingsEffect(t))
  }

  /** The upload modal: the picker hands an accepted file to the handshake. */
  function OnModal(s: State, action: ModalAction): (r: (State, seq<Emit>))
    ensures r.0.arbiter == s.arbiter
    ensures forall ev :: ev in r.1 ==> ev.RequestPresignedUrl? || ev.UploadComplete?
    ensures action.ChooseFile? && OnLegacyFileChange(s.picker, action.selected).1.Some? ==>
              r.0.upload.selected == action.selected
    ensures action.ChooseFile? && OnLegacyFileChange(s.picker, action.selected).1.None? ==>
              r.0.upload == s.upload
    ensures action.PressUpload? ==> r.1 == H.Click(s.upload, None).1
    ensures action.CloseModal? ==> r.0 == s.(picker := InitialLegacyPicker) && r.1 == []
  {
    match action
    case ChooseFile(selected) =>
      var c := OnLegacyFileChange(s.picker, selected);
      var u := if c.1.Some? then H.Select(s.upload, c.1) else s.upload;
      (s.(picker := c.0, upload := u), [])
    case PressUpload =>
      var c := H.Click(s.upload, None);
      (s.(upload := c.0), c.1)
    case PresignedUrl(name, ok) =>
      var c := H.OnPresignedUrl(s.upload, name, ok);
      (s.(upload := c.0), c.1)
    case PresignedUrlError(message) =>
      (s.(upload := H.OnPresignedUrlError(s.upload, message)), [])
    case CloseModal =>
      // the picker unmounts; the selected file and the status stay
      (s.(picker := InitialLegacyPicker), [])
  }

  function Step(s: State, e: Input): (r: (State, seq<Emit>))
    ensures forall ev :: ev in r.1 && Gated(ev) ==> r.0.arbiter.hasControl
    ensures !e.Arbitrate? ==> r.0.arbiter == s.arbiter && Count(r.1, RequestControl) == 0
    ensures e.Arbitrate? ==> r.0.arbiter == A.React(s.arbiter, e.signal).0
    ensures e.Arbitrate? ==> Count(r.1, RequestControl) == Count(A.React(s.arbiter, e.signal).1, RequestControl)
  {
    match e
    case Arbitrate(sig) => OnSignal(s, sig)
    case Frame(camera) => (s, OnFrame(s, camera))
    case Flip(setting) => OnFlip(s, setting)
    case Modal(action) => OnModal(s, action)
  }

  // ----- runs from a freshly loaded page -----

  function StateAfter(es: seq<Input>): State
  {
    if |es| == 0 then Initial else Step(StateAfter(es[..|es| - 1]), es[|es| - 1]).0
  }

  /** The events emitted while handling input `i`. */
  function OutputAt(es: seq<Input>, i: nat): seq<Emit>
    requires i < |es|
  {
    Step(StateAfter(es[..i]), es[i]).1
  }

  function Outputs(es: seq<Input>): seq<Emit>
  {
    if |es| == 0 then [] else Outputs(es[..|es| - 1]) + Step(StateAfter(es[..|es| - 1]), es[|es| - 1]).1
  }

  function Signals(es: seq<Input>): seq<A.Signal>
  {
    if |es| == 0 then []
    else
      var e := es[|es| - 1];
      Signals(es[..|es| - 1]) + (if e.Arbitrate? then [e.signal] else [])
  }

  /** The page's arbiter is exactly that of the arbitration logic fed the
      page's control signals. */
  lemma {:induction false} ArbiterFollowsSignals(es: seq<Input>)
    ensures StateAfter(es).arbiter == A.After(Signals(es)).0
  {
    if |es| > 0 {
      var init := es[..|es| - 1];
      ArbiterFollowsSignals(init);
      var e := es[|es| - 1];
      if e.Arbitrate? {
        var sigs := Signals(init) + [e.signal];
        assert Signals(es) == sigs;
        assert sigs[..|sigs| - 1] == Signals(init);
        assert A.After(sigs).0 == A.React(A.After(Signals(init)).0, e.signal).0;
      } else {
        assert Signals(es) == Signals(init);
      }
    }
  }

  /** The page emits `request_control` exactly as often as the arbitration
      logic fed its control signals. */
  lemma {:induction false} RequestsFollowSignals(es: seq<Input>)
    ensures Count(Outputs(es), RequestControl) == Count(A.After(Signals(es)).1, RequestControl)
  {
    if |es| > 0 {
      var init := es[..|es| - 1];
      RequestsFollowSignals(init);
      ArbiterFollowsSignals(init);
      var e := es[|es| - 1];
      var step := Step(StateAfter(init), e);
      assert Outputs(es) == Outputs(init) + step.1;
      CountAppend(Outputs(init), step.1, RequestControl);
      if e.Arbitrate? {
        var sigs := Signals(init) + [e.signal];
        assert Signals(es) == sigs;
        assert sigs[..|sigs| - 1] == Signals(init);
        var prev := A.After(Signals(init));
        assert A.After(sigs).1 == prev.1 + A.React(prev.0, e.signal).1;
        CountAppend(prev.1, A.React(prev.0, e.signal).1, RequestControl);
      } else {
        assert Signals(es) == Signals(init);
      }
    }
  }

  /** `hasControl` starts false, a grant sets it, a denial clears it, and
      the last of them wins. */
  lemma ControlIsLastVerdict(es: seq<Input>)
    ensures StateAfter(es).arbiter.hasControl <==> A.LastVerdict(Signals(es)) == Some(true)
  {
    ArbiterFollowsSignals(es);
    A.HasControlIsLastVerdict(Signals(es));
  }

  /** `request_control` is emitted at most once per page instance. */
  lemma ControlRequestedAtMostOnce(es: seq<Input>)
    ensures Count(Outputs(es), RequestControl) <= 1
  {
    RequestsFollowSignals(es);
    A.RequestedOnce(Signals(es));
  }

  /** Every camera or settings event is emitted while handling an input
      after which the last verdict received is a grant. */
  lemma GatedOnlyUnderGrant(es: seq<Input>, i: nat, ev: Emit)
    requires i < |es|
    requires ev in OutputAt(es, i) && Gated(ev)
    ensures A.LastVerdict(Signals(es[..i + 1])) == Some(true)
  {
    assert es[..i + 1][..i] == es[..i];
    assert es[..i + 1][i] == es[i];
    ControlIsLastVerdict(es[..i + 1]);
  }

  /** No change detection: two identical frames in control give two
      identical `camera_update` events. */
  lemma EveryFramePublishes(s: State, c: Camera)
    requires s.arbiter.hasControl
    ensures var first := Step(s, Frame(Some(c)));
            var second := Step(first.0, Frame(Some(c)));
            first.1 + second.1 == [CameraUpdate(c.position, c.quaternion, None), CameraUpdate(c.position, c.quaternion, None)]
  {
  }
}
