/** What a page can say to the relay and what the relay's payloads carry.
    The socket itself is not modelled: a page's step returns the sequence
    of events it emits, in emission order. */
module Relay {
  import opened Base
  import opened Values

  /** A camera as the controller samples it on a render frame. */
  datatype Camera = Camera(position: seq<real>, quaternion: seq<real>, zoom: real)

  /** What `toArray()` gives for a three.js camera: three position and four
      quaternion components. */
  predicate Sampled(c: Camera)
  {
    |c.position| == 3 && |c.quaternion| == 4
  }

  /** An uploaded model as the relay's `files_list` describes it. */
  datatype Entry = Entry(id: string, author: string, url: string, folder: string)

  /** The `{ name, url }` records of the older pages. */
  datatype Asset = Asset(name: string, url: string)

  /** An event emitted to the relay. */
  datatype Emit =
    | RequestControl
    | CameraUpdate(position: seq<real>, rotation: seq<real>, zoom: Option<real>)
    | SettingsUpdate(payload: Value)
    | SettingsUpdateLocal(payload: Value)
    | ModelSettingsUpdate(payload: Value)
    | RequestPresignedUrl(fileName: string, fileType: string)
    | UploadComplete(fileName: string, author: Option<string>)
    | GetFiles
    | ModelSwitch(index: int)
    | AdminLogin(username: string, password: string)
    | DeleteFile(fileName: string, folder: string)

  /** The events only the controller holding control may publish. */
  predicate Gated(e: Emit)
  {
    e.CameraUpdate? || e.SettingsUpdate? || e.SettingsUpdateLocal? || e.ModelSettingsUpdate?
  }

  /** Ids of a catalog, in catalog order. */
  function Ids(models: seq<Entry>): (ids: seq<string>)
    ensures |ids| == |models|
    ensures forall i :: 0 <= i < |models| ==> ids[i] == models[i].id
  {
    if |models| == 0 then [] else [models[0].id] + Ids(models[1..])
  }
}
