/** The per-frame camera publisher of components/control/CameraSync.tsx,
    used by the sidebar-based controller. */
module CameraSync {
  import opened Base
  import opened Relay

  /** One render frame: with control, publish position, quaternion and zoom;
      without control, nothing. There is no change detection. */
  function OnFrame(hasControl: bool, camera: Camera): (out: seq<Emit>)
    ensures |out| <= 1
    ensures out != [] <==> hasControl
    ensures forall ev :: ev in out ==> Gated(ev) && ev.CameraUpdate?
    ensures hasControl ==> out[0].position == camera.position && out[0].rotation == camera.quaternion
                           && out[0].zoom == Some(camera.zoom)
  {
    if hasControl then [CameraUpdate(camera.position, camera.quaternion, Some(camera.zoom))] else []
  }

  /** The frames of a run, published one event per frame while in control. */
  function OnFrames(hasControl: bool, frames: seq<Camera>): (out: seq<Emit>)
  {
    if |frames| == 0 then [] else OnFrames(hasControl, frames[..|frames| - 1]) + OnFrame(hasControl, frames[|frames| - 1])
  }

  /** Every frame in control publishes once, identical frames included;
      out of control nothing is published. */
  lemma {:induction false} OneEventPerFrame(hasControl: bool, frames: seq<Camera>)
    ensures |OnFrames(hasControl, frames)| == if hasControl then |frames| else 0
    ensures hasControl ==> forall i :: 0 <= i < |frames| ==>
              OnFrames(hasControl, frames)[i] == CameraUpdate(frames[i].position, frames[i].quaternion, Some(frames[i].zoom))
  {
    if |frames| > 0 {
      var init := frames[..|frames| - 1];
      OneEventPerFrame(hasControl, init);
      if hasControl {
        forall i | 0 <= i < |frames|
          ensures OnFrames(hasControl, frames)[i] == CameraUpdate(frames[i].position, frames[i].quaternion, Some(frames[i].zoom))
        {
          if i < |init| {
            assert frames[i] == init[i];
          }
        }
      }
    }
  }
}
