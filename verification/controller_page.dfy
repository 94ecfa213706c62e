/** The stand-alone controller page of pages/ControllerPage.tsx: a camera
    publisher with its own control arbitration, and a sphere whose radius
    follows the window width. */
module ControllerPage {
  import opened Base
  import opened Relay
  import A = Arbitration

  /** The sphere radius for a window `width` pixels wide. */
  function SphereRadius(width: int): (r: real)
    ensures width < 600 ==> r == 1.0
    ensures 600 <= width < 1024 ==> r == 1.5
    ensures 1024 <= width ==> r == 2.0
  {
    if width < 600 then 1.0 else if width < 1024 then 1.5 else 2.0
  }

  /** A wider window never gives a smaller sphere, and the radius is one of
      the three sizes. */
  lemma RadiusMonotone(w1: int, w2: int)
    requires w1 <= w2
    ensures SphereRadius(w1) <= SphereRadius(w2)
    ensures SphereRadius(w1) in {1.0, 1.5, 2.0}
  {
  }

  datatype Input =
    | Arbitrate(signal: A.Signal)
    | Frame(camera: Option<Camera>)

  /** One input: arbitration events go to the arbiter; a frame publishes
      position and quaternion, without zoom, while in control. */
  function Step(a: A.Arbiter, e: Input): (r: (A.Arbiter, seq<Emit>))
    ensures e.Arbitrate? ==> r == A.React(a, e.signal)
    ensures e.Frame? ==> r.0 == a
    ensures e.Frame? ==> (r.1 != [] <==> a.hasControl && e.camera.Some?)
    ensures e.Frame? && r.1 != [] ==>
              r.1 == [CameraUpdate(e.camera.value.position, e.camera.value.quaternion, None)]
  {
    match e
    case Arbitrate(sig) => A.React(a, sig)
    case Frame(camera) =>
      if a.hasControl && camera.Some? then
        (a, [CameraUpdate(camera.value.position, camera.value.quaternion, None)])
      else (a, [])
  }

  function StateAfter(es: seq<Input>): A.Arbiter
  {
    if |es| == 0 then A.Initial else Step(StateAfter(es[..|es| - 1]), es[|es| - 1]).0
  }

  function Outputs(es: seq<Input>): seq<Emit>
  {
    if |es| == 0 then [] else Outputs(es[..|es| - 1]) + Step(StateAfter(es[..|es| - 1]), es[|es| - 1]).1
  }

  function Signals(es: seq<Input>): seq<A.Signal>
  {
    if |es| == 0 then []
    else
      var e := es[|es| - 1];
      Signals(es[..|es| - 1]) + (if e.Arbitrate? then [e.signal] else [])
  }

  /** Frames leave the arbiter alone and emit no `request_control`: the page
      is the arbitration logic fed its control signals. */
  lemma {:induction false} PageIsArbiter(es: seq<Input>)
    ensures StateAfter(es) == A.After(Signals(es)).0
    ensures Count(Outputs(es), RequestControl) == Count(A.After(Signals(es)).1, RequestControl)
  {
    if |es| > 0 {
      var init := es[..|es| - 1];
      PageIsArbiter(init);
      var e := es[|es| - 1];
      var step := Step(StateAfter(init), e);
      assert Outputs(es) == Outputs(init) + step.1;
      CountAppend(Outputs(init), step.1, RequestControl);
      if e.Arbitrate? {
        var sigs := Signals(init) + [e.signal];
        assert Signals(es) == sigs;
        assert sigs[..|sigs| - 1] == Signals(init);
        var prev := A.After(Signals(init));
        CountAppend(prev.1, A.React(prev.0, e.signal).1, RequestControl);
      } else {
        assert Signals(es) == Signals(init);
        assert Count(step.1, RequestControl) == 0;
      }
    }
  }

  /** Camera updates go out only while the last verdict is a grant, and
      `request_control` at most once. */
  lemma PublishesOnlyUnderGrant(es: seq<Input>)
    requires |es| > 0 && es[|es| - 1].Frame?
    ensures Step(StateAfter(es[..|es| - 1]), es[|es| - 1]).1 != [] ==>
              A.LastVerdict(Signals(es)) == Some(true)
    ensures Count(Outputs(es), RequestControl) <= 1
  {
    var init := es[..|es| - 1];
    PageIsArbiter(init);
    PageIsArbiter(es);
    assert Signals(es) == Signals(init);
    A.HasControlIsLastVerdict(Signals(init));
    A.RequestedOnce(Signals(es));
  }
}
