/** The controller's side of control arbitration, shared by both controller
    pages: one `request_control` per mounted page, and a `hasControl` flag
    that follows the relay's grant and deny events. The relay that decides
    is not part of this model. */
module Arbitration {
  import opened Base
  import opened Relay

  /** `hasControl` state and the `hasRequestedControl` ref. */
  datatype Arbiter = Arbiter(hasControl: bool, requested: bool)

  const Initial: Arbiter := Arbiter(false, false)

  /** What reaches the arbitration logic: the mount effect, `control_granted`
      and `control_denied`. */
  datatype Signal = Mounted | Granted | Denied

  function React(a: Arbiter, sig: Signal): (r: (Arbiter, seq<Emit>))
    ensures r.0.requested == (a.requested || sig.Mounted?)
    ensures sig.Mounted? ==> r.0.hasControl == a.hasControl
    ensures sig.Granted? ==> r.0.hasControl
    ensures sig.Denied? ==> !r.0.hasControl
    ensures r.1 == [] || r.1 == [RequestControl]
    ensures RequestControl in r.1 <==> sig.Mounted? && !a.requested
  {
    match sig
    case Mounted => if a.requested then (a, []) else (a.(requested := true), [RequestControl])
    case Granted => (a.(hasControl := true), [])
    case Denied => (a.(hasControl := false), [])
  }

  /** The last arbitration verdict among `sigs`: true for a grant, false for
      a denial, none when neither happened. */
  function LastVerdict(sigs: seq<Signal>): Option<bool>
  {
    if |sigs| == 0 then None
    else match sigs[|sigs| - 1]
      case Granted => Some(true)
      case Denied => Some(false)
      case Mounted => LastVerdict(sigs[..|sigs| - 1])
  }

  /** The arbiter after `sigs` from a fresh page, and everything it emitted. */
  function After(sigs: seq<Signal>): (Arbiter, seq<Emit>)
  {
    if |sigs| == 0 then (Initial, [])
    else
      var prev := After(sigs[..|sigs| - 1]);
      var step := React(prev.0, sigs[|sigs| - 1]);
      (step.0, prev.1 + step.1)
  }

  /** `hasControl` holds exactly when the last verdict was a grant: it starts
      false and the last event wins. */
  lemma {:induction false} HasControlIsLastVerdict(sigs: seq<Signal>)
    ensures After(sigs).0.hasControl <==> LastVerdict(sigs) == Some(true)
  {
    if |sigs| > 0 {
      HasControlIsLastVerdict(sigs[..|sigs| - 1]);
    }
  }

  /** `request_control` goes out once when the page has mounted, and never
      a second time, however often the mount effect runs. */
  lemma {:induction false} RequestedOnce(sigs: seq<Signal>)
    ensures After(sigs).0.requested <==> Mounted in sigs
    ensures Count(After(sigs).1, RequestControl) == if Mounted in sigs then 1 else 0
  {
    if |sigs| > 0 {
      var init := sigs[..|sigs| - 1];
      RequestedOnce(init);
      assert sigs == init + [sigs[|sigs| - 1]];
      var prev := After(init);
      var step := React(prev.0, sigs[|sigs| - 1]);
      CountAppend(prev.1, step.1, RequestControl);
    }
  }
}
