/** The controller sidebar and upload modal of
    components/control/SidebarAndUpload.tsx: the scene settings and camera
    settings it publishes while in control, the model list it keeps fresh,
    and the upload modal that combines the current picker with the
    pre-signed handshake. */
module Sidebar {
  import opened Base
  import opened Values
  import opened Relay
  import opened UploadValidation
  import H = Handshake

  /** The `hasControl` prop, both settings objects, the model list, the
      picker inside the modal, the author handed over by the picker, the
      handshake, whether the modal is open, and how many `files_list`
      once-listeners `model_uploaded` has left pending. */
  datatype State = State(hasControl: bool, settings: map<string, Value>, camera: map<string, Value>,
                         models: seq<Entry>, picker: Picker, author: string, upload: H.Upload,
                         modalOpen: bool, refreshWaiters: nat)

  const InitialSettings: map<string, Value> :=
    map["lightIntensity" := Num(2.0), "autoSwitch" := Bool(true),
        "lightColor" := Str("#ffffff"), "currentModelIndex" := Num(0.0)]

  const InitialCamera: map<string, Value> :=
    map["autoRotate" := Bool(false), "rotateSpeed" := Num(0.005), "minDistance" := Num(10.0)]

  function Initial(hasControl: bool): State
  {
    State(hasControl, InitialSettings, InitialCamera, [], InitialPicker, "", H.Idle, false, 0)
  }

  /** The two publishing effects, settings first: each runs when its object
      (or `hasControl`) changed and emits only in control. */
  function Publish(s: State, settingsChanged: bool, cameraChanged: bool): (out: seq<Emit>)
    ensures forall ev :: ev in out ==> Gated(ev) && s.hasControl
    ensures forall ev :: ev in out && ev.SettingsUpdate? ==> ev.payload == Obj(s.settings)
    ensures forall ev :: ev in out && ev.SettingsUpdateLocal? ==> ev.payload == Obj(s.camera)
    ensures SettingsUpdate(Obj(s.settings)) in out <==> s.hasControl && settingsChanged
    ensures SettingsUpdateLocal(Obj(s.camera)) in out <==> s.hasControl && cameraChanged
    ensures forall ev :: ev in out ==> ev.SettingsUpdate? || ev.SettingsUpdateLocal?
  {
    (if s.hasControl && settingsChanged then [SettingsUpdate(Obj(s.settings))] else [])
    + (if s.hasControl && cameraChanged then [SettingsUpdateLocal(Obj(s.camera))] else [])
  }

  datatype Input =
    | Mount
    | ControlChanged(hasControl: bool)
    | SetSetting(key: string, value: Value)
    | SetCameraSetting(key: string, value: Value)
    | UpdateIndex(index: Value)
    | ModelUploaded
    | FilesList(list: seq<Entry>)
    | OpenModal
    | CloseModal
    | ChooseFile(selected: Option<File>)
    | TypeAuthor(author: string)
    | RemoveFile
    | PressUpload
    | PresignedUrl(fileName: string, putOk: bool)
    | PresignedUrlError(message: string)

  /** Socket events and prop changes that touch the settings or the list. */
  function OnRelay(s: State, e: Input): (r: (State, seq<Emit>))
    requires e.Mount? || e.ControlChanged? || e.SetSetting? || e.SetCameraSetting?
             || e.UpdateIndex? || e.ModelUploaded? || e.FilesList?
    ensures r.0.hasControl == (if e.ControlChanged? then e.hasControl else s.hasControl)
    ensures r.0.picker == s.picker && r.0.upload == s.upload
    ensures e.SetSetting? ==> r.0.settings == Merge(s.settings, e.key, e.value)
                              && r.1 == Publish(r.0, true, false)
    ensures e.SetCameraSetting? ==> r.0.camera == Merge(s.camera, e.key, e.value)
                                    && r.1 == Publish(r.0, false, true)
    ensures e.UpdateIndex? && !Truthy(e.index) ==> r == (s, [])
    ensures e.UpdateIndex? && Truthy(e.index) ==>
              r.0.settings == Merge(s.settings, "currentModelIndex", e.index)
    ensures e.ControlChanged? && e.hasControl && !s.hasControl ==>
              r.1 == [SettingsUpdate(Obj(s.settings)), SettingsUpdateLocal(Obj(s.camera))]
    ensures e.ControlChanged? && !e.hasControl ==> r.1 == []
    ensures e.ModelUploaded? ==>
              Lookup(r.0.settings, "autoSwitch") == Bool(false)
              && r.0.refreshWaiters == s.refreshWaiters + 1
              && r.1 != [] && r.1[0] == GetFiles
    ensures e.FilesList? ==> r.0.models == e.list && r.0.refreshWaiters == 0 && r.1 == []
    ensures forall ev :: ev in r.1 && ev.SettingsUpdate? ==> ev.payload == Obj(r.0.settings)
    ensures forall ev :: ev in r.1 && ev.SettingsUpdateLocal? ==> ev.payload == Obj(r.0.camera)
    ensures forall ev :: ev in r.1 && Gated(ev) ==> r.0.hasControl
  {
    match e
    case Mount => (s, [GetFiles] + Publish(s, true, true))
    case ControlChanged(b) =>
      var t := s.(hasControl := b);
      (t, Publish(t, b != s.hasControl, b != s.hasControl))
    case SetSetting(k, v) =>
      var t := s.(settings := Merge(s.settings, k, v));
      (t, Publish(t, true, false))
    case SetCameraSetting(k, v) =>
      var t := s.(camera := Merge(s.camera, k, v));
      (t, Publish(t, false, true))
    case UpdateIndex(v) =>
      if Truthy(v) then
        var t := s.(settings := Merge(s.settings, "currentModelIndex", v));
        (t, Publish(t, true, false))
      else (s, [])
    case ModelUploaded =>
      var t := s.(settings := Merge(s.settings, "autoSwitch", Bool(false)), refreshWaiters := s.refreshWaiters + 1);
      // `get_files` goes out inside the listener, before the re-render
      // runs the publishing effect
      (t, [GetFiles] + Publish(t, true, false))
    case FilesList(l) =>
      // the permanent listener sets the list; each pending once-listener
      // sets it again when it is non-empty, so the list always ends as `l`
      (s.(models := l, refreshWaiters := 0), [])
  }

  /** `handleMetadata`, called by the picker's effect whenever it holds a
      file and its file or author changed. */
  function HandOver(s: State, p: Picker): (r: State)
    ensures r.picker == p
    ensures p.file.Some? ==> r.upload.selected == p.file && r.author == SelectionCallback(p).value.1
    ensures p.file.None? ==> r.upload == s.upload && r.author == s.author
    ensures r.hasControl == s.hasControl && r.settings == s.settings && r.camera == s.camera
    ensures r.models == s.models && r.modalOpen == s.modalOpen
  {
    match SelectionCallback(p)
    case None => s.(picker := p)
    case Some(c) => s.(picker := p, upload := H.Select(s.upload, Some(c.0)), author := c.1)
  }

  /** The modal: the picker, the handshake and the open and close buttons.
      The Upload Model button is disabled without control; closing unmounts
      the picker. `modelsName` is the picker's list of
      taken names, none when the prop is not passed. */
  function OnModal(s: State, e: Input, modelsName: Option<seq<string>>): (r: (State, seq<Emit>))
    requires e.OpenModal? || e.CloseModal? || e.ChooseFile? || e.TypeAuthor? || e.RemoveFile?
             || e.PressUpload? || e.PresignedUrl? || e.PresignedUrlError?
    ensures r.0.hasControl == s.hasControl && r.0.settings == s.settings && r.0.camera == s.camera
    ensures r.0.models == s.models
    ensures forall ev :: ev in r.1 ==> ev.RequestPresignedUrl? || ev.UploadComplete?
    ensures e.ChooseFile? && modelsName.Some? ==> r.0.picker == OnFileChange(s.picker, modelsName.value, e.selected)
    ensures e.ChooseFile? && modelsName.None? ==> r.0.picker == OnFileChangeUnbound(s.picker, e.selected)
    ensures e.PressUpload? && s.upload.selected.Some? ==>
              r.1 == [RequestPresignedUrl(s.upload.selected.value.name, s.upload.selected.value.mimeType)]
              && r.0.upload.urlWaiters == s.upload.urlWaiters + [Some(s.author)]
    ensures e.OpenModal? ==> r.0.modalOpen == (s.modalOpen || s.hasControl)
    ensures e.CloseModal? ==> !r.0.modalOpen && r.0.picker == InitialPicker
                              && r.0.upload.selected.None? && r.0.upload.status == ""
  {
    match e
    case OpenModal => (s.(modalOpen := s.modalOpen || s.hasControl), [])
    case CloseModal => (s.(modalOpen := false, picker := InitialPicker, upload := H.Close(s.upload)), [])
    case ChooseFile(selected) =>
      (match modelsName
       case Some(names) => (HandOver(s, OnFileChange(s.picker, names, selected)), [])
       case None => (HandOver(s, OnFileChangeUnbound(s.picker, selected)), []))
    case TypeAuthor(a) => (HandOver(s, OnAuthorChange(s.picker, a)), [])
    case RemoveFile => (s.(picker := OnRemove(s.picker), upload := H.Select(s.upload, None)), [])
    case PressUpload =>
      var c := H.Click(s.upload, Some(s.author));
      (s.(upload := c.0), c.1)
    case PresignedUrl(name, ok) =>
      var c := H.OnPresignedUrl(s.upload, name, ok);
      (s.(upload := c.0), c.1)
    case PresignedUrlError(message) => (s.(upload := H.OnPresignedUrlError(s.upload, message)), [])
  }

  /** One input, given the picker's `modelsName`. */
  function StepWith(s: State, e: Input, modelsName: Option<seq<string>>): (r: (State, seq<Emit>))
    ensures r.0.hasControl == (if e.ControlChanged? then e.hasControl else s.hasControl)
    ensures forall ev :: ev in r.1 && Gated(ev) ==> r.0.hasControl
    ensures forall ev :: ev in r.1 && ev.SettingsUpdate? ==> ev.payload == Obj(r.0.settings)
    ensures forall ev :: ev in r.1 && ev.SettingsUpdateLocal? ==> ev.payload == Obj(r.0.camera)
  {
    if e.Mount? || e.ControlChanged? || e.SetSetting? || e.SetCameraSetting?
       || e.UpdateIndex? || e.ModelUploaded? || e.FilesList?
    then OnRelay(s, e)
    else OnModal(s, e, modelsName)
  }

  /** One input of the page as rendered: the picker gets no `modelsName`,
      so a pick never makes it hold a file it did not hold already. */
  function Step(s: State, e: Input): (r: (State, seq<Emit>))
    ensures r.0.hasControl == (if e.ControlChanged? then e.hasControl else s.hasControl)
    ensures forall ev :: ev in r.1 && Gated(ev) ==> r.0.hasControl
    ensures forall ev :: ev in r.1 && ev.SettingsUpdate? ==> ev.payload == Obj(r.0.settings)
    ensures forall ev :: ev in r.1 && ev.SettingsUpdateLocal? ==> ev.payload == Obj(r.0.camera)
    ensures e.ChooseFile? && r.0.picker.file.Some? ==> r.0.picker.file == s.picker.file
  {
    StepWith(s, e, None)
  }

  /** One input with the picker told the names already in the list (see
      Findings in README.md). */
  function StepCorrected(s: State, e: Input): (r: (State, seq<Emit>))
    ensures r.0.hasControl == (if e.ControlChanged? then e.hasControl else s.hasControl)
    ensures forall ev :: ev in r.1 && Gated(ev) ==> r.0.hasControl
    ensures forall ev :: ev in r.1 && ev.SettingsUpdate? ==> ev.payload == Obj(r.0.settings)
    ensures forall ev :: ev in r.1 && ev.SettingsUpdateLocal? ==> ev.payload == Obj(r.0.camera)
    ensures e.ChooseFile? ==> r.0.picker == OnFileChange(s.picker, Ids(s.models), e.selected)
  {
    StepWith(s, e, Some(Ids(s.models)))
  }

  /** The page as rendered, from `init`, after the inputs `es`. */
  function StateAfter(init: State, es: seq<Input>): State
  {
    if |es| == 0 then init else Step(StateAfter(init, es[..|es| - 1]), es[|es| - 1]).0
  }

  /** An upload announced by the relay is followed by a fresh list: the
      uploading viewer's auto-switch is turned off, the list is requested,
      and the reply replaces the list whatever its length; the request goes
      out before the settings are published. */
  lemma UploadRefreshesList(s: State, l: seq<Entry>)
    ensures var a := Step(s, ModelUploaded);
            var b := Step(a.0, FilesList(l));
            a.1[0] == GetFiles && b.0.models == l && b.0.refreshWaiters == 0
            && Lookup(b.0.settings, "autoSwitch") == Bool(false)
  {
  }

  /** Gaining control publishes the current settings and camera settings,
      in that order, and losing it publishes nothing. */
  lemma GainingControlPublishesBoth(s: State)
    requires !s.hasControl
    ensures Step(s, ControlChanged(true)).1 == [SettingsUpdate(Obj(s.settings)), SettingsUpdateLocal(Obj(s.camera))]
    ensures Step(Step(s, ControlChanged(true)).0, ControlChanged(false)).1 == []
  {
  }

  /** Every `settings_update` a run emits carries the settings object as it
      stood right after that input, and only while in control. */
  lemma PublishedSettingsAreCurrent(init: State, es: seq<Input>, i: nat, ev: Emit)
    requires i < |es|
    requires ev in Step(StateAfter(init, es[..i]), es[i]).1
    ensures Gated(ev) ==> StateAfter(init, es[..i + 1]).hasControl
    ensures ev.SettingsUpdate? ==> ev.payload == Obj(StateAfter(init, es[..i + 1]).settings)
  {
    assert es[..i + 1][..i] == es[..i];
  }

  /** Nothing picked and nothing waiting for a pre-signed URL. */
  predicate NothingToUpload(s: State)
  {
    s.picker.file.None? && s.upload.selected.None? && s.upload.urlWaiters == []
  }

  /** As rendered, a page with nothing to upload keeps it that way and
      never sends an upload request or completion. */
  lemma StepKeepsNothingToUpload(s: State, e: Input)
    requires NothingToUpload(s)
    ensures NothingToUpload(Step(s, e).0)
    ensures forall ev :: ev in Step(s, e).1 ==> !ev.RequestPresignedUrl? && !ev.UploadComplete?
  {
    if e.ChooseFile? {
      assert OnFileChangeUnbound(s.picker, e.selected).file.None?;
    }
  }

  /** As rendered, no run from a fresh page ever requests a pre-signed URL
      or completes an upload: the Upload button stays disabled. */
  lemma {:induction false} RenderedPageNeverUploads(hasControl: bool, es: seq<Input>)
    ensures NothingToUpload(StateAfter(Initial(hasControl), es))
    ensures |es| > 0 ==> forall ev :: ev in Step(StateAfter(Initial(hasControl), es[..|es| - 1]), es[|es| - 1]).1 ==>
              !ev.RequestPresignedUrl? && !ev.UploadComplete?
  {
    if |es| > 0 {
      RenderedPageNeverUploads(hasControl, es[..|es| - 1]);
      StepKeepsNothingToUpload(StateAfter(Initial(hasControl), es[..|es| - 1]), es[|es| - 1]);
    }
  }

  // ----- the picker as rendered (see Findings in README.md) -----

  /** `handleFileChange` of the picker as this modal renders it: without a
      `modelsName` prop. A file that passes the size and type checks makes
      `modelsName.includes` throw before any state is set. */
  function OnFileChangeUnbound(p: Picker, selected: Option<File>): (r: Picker)
    ensures r.author == p.author
    ensures r.file.Some? ==> r.file == p.file
    ensures selected.Some? && selected.value.size > MaxBytes ==> r.error == Some(TooLargeMessage)
  {
    match selected
    case None => p
    case Some(f) =>
      if TooLarge(f) || !HasModelExtension(f.name) then OnFileChange(p, [], selected) else p
  }

  /** As rendered, the modal's picker never holds a file, so Upload stays
      disabled for good. */
  lemma {:induction false} UnboundPickerNeverAccepts(selections: seq<Option<File>>)
    ensures PickAll(InitialPicker, selections).file.None?
  {
    if |selections| > 0 {
      UnboundPickerNeverAccepts(selections[..|selections| - 1]);
    }
  }

  function PickAll(p: Picker, selections: seq<Option<File>>): Picker
  {
    if |selections| == 0 then p
    else OnFileChangeUnbound(PickAll(p, selections[..|selections| - 1]), selections[|selections| - 1])
  }

  /** A small new model that the picker with the list of taken names
      accepts, and the rendered picker does not. */
  lemma FreshModelRejectedAsRendered()
    ensures var f := File("chair.glb", 1024, "model/gltf-binary");
            OnFileChange(InitialPicker, Ids(Initial(true).models), Some(f)).file == Some(f)
            && OnFileChangeUnbound(InitialPicker, Some(f)).file.None?
  {
    var f := File("chair.glb", 1024, "model/gltf-binary");
    assert EndsWith(f.name, ".glb");
    HasModelExtensionIffListed(f.name);
  }
}
