/** The model chooser of components/control/SeletModels.tsx: two lists
    (the curated one and the users' one), the `{ currentModelIndex,
    activeModelSource }` selection, and a one-shot `canSend` flag that lets
    one click publish the selection as `model_settings_update`. */
module SelectModels {
  import opened Base
  import opened Values
  import opened Relay

  const TukeModels: string := "tuke-models"
  const UserModels: string := "user-models"

  /** The two list props, the `hasControl` prop, the selection object, the
      `canSend` flag and the name of the displayed list. */
  datatype State = State(tuke: seq<Entry>, user: seq<Entry>, hasControl: bool,
                         selection: map<string, Value>, canSend: bool, activeList: string)

  /** Note the initial source "user-model", which is neither list name. */
  function Initial(tuke: seq<Entry>, user: seq<Entry>, hasControl: bool): State
  {
    State(tuke, user, hasControl,
          map["currentModelIndex" := Num(0.0), "activeModelSource" := Str("user-model")],
          false, UserModels)
  }

  /** The list on screen. */
  function Displayed(s: State): (l: seq<Entry>)
    ensures s.activeList == TukeModels ==> l == s.tuke
    ensures s.activeList != TukeModels ==> l == s.user
  {
    if s.activeList == TukeModels then s.tuke else s.user
  }

  /** The list the selection refers to. */
  function Source(s: State): (l: seq<Entry>)
    ensures Lookup(s.selection, "activeModelSource") == Str(TukeModels) ==> l == s.tuke
    ensures Lookup(s.selection, "activeModelSource") != Str(TukeModels) ==> l == s.user
  {
    if Lookup(s.selection, "activeModelSource") == Str(TukeModels) then s.tuke else s.user
  }

  /** Item `i` of the displayed list is highlighted: strict equality of the
      index and of the folder with the selected source. */
  predicate Highlighted(s: State, i: int)
  {
    0 <= i < |Displayed(s)|
    && Lookup(s.selection, "currentModelIndex") == Num(i as real)
    && Lookup(s.selection, "activeModelSource") == Str(Displayed(s)[i].folder)
  }

  datatype Input =
    | UpdateIndex(index: Value)
    | ShowList(name: string)
    | Click(item: int)
    | ControlChanged(hasControl: bool)

  /** A step's new state, its emissions, and whether it asked the parent to
      turn auto-switch off. */
  datatype Reaction = Reaction(state: State, emits: seq<Emit>, autoSwitchOff: bool)

  /** The `[canSend]` effect after `canSend` was set to true: in control it
      publishes the selection and clears the flag; otherwise the flag stays
      set. It runs only when the flag actually changed. */
  function SendEffect(s: State, wasSet: bool): (r: (State, seq<Emit>))
    requires s.canSend
    ensures wasSet || !s.hasControl ==> r == (s, [])
    ensures !wasSet && s.hasControl ==>
              r == (s.(canSend := false), [ModelSettingsUpdate(Obj(s.selection))])
  {
    if !wasSet && s.hasControl then (s.(canSend := false), [ModelSettingsUpdate(Obj(s.selection))])
    else (s, [])
  }

  function Step(s: State, e: Input): (r: Reaction)
    ensures |r.emits| <= 1
    ensures r.emits != [] ==> s.hasControl && r.emits == [ModelSettingsUpdate(Obj(r.state.selection))]
    ensures r.emits != [] ==> !r.state.canSend
    ensures s.canSend ==> r.emits == [] && r.state.canSend
    ensures r.autoSwitchOff ==> e.Click?
    ensures r.state.tuke == s.tuke && r.state.user == s.user
    ensures e.UpdateIndex? && Truthy(e.index) && !s.hasControl ==>
              r.state.selection == Merge(s.selection, "currentModelIndex", e.index)
    ensures e.UpdateIndex? && !(Truthy(e.index) && !s.hasControl) ==> r.state == s
    ensures e.ShowList? ==> r.state == s.(activeList := e.name) && r.emits == []
    ensures e.Click? && 0 <= e.item < |Displayed(s)| ==>
              Lookup(r.state.selection, "activeModelSource") == Str(s.activeList)
              && Lookup(r.state.selection, "currentModelIndex") == Num(e.item as real)
              && (r.autoSwitchOff <==> |Displayed(s)| < 2)
              && (r.emits != [] <==> s.hasControl && !s.canSend)
    ensures e.Click? && !(0 <= e.item < |Displayed(s)|) ==> r == Reaction(s, [], false)
    ensures e.ControlChanged? ==> r.state == s.(hasControl := e.hasControl) && r.emits == []
  {
    match e
    case UpdateIndex(v) =>
      if Truthy(v) && !s.hasControl then Reaction(s.(selection := Merge(s.selection, "currentModelIndex", v)), [], false)
      else Reaction(s, [], false)
    case ShowList(name) => Reaction(s.(activeList := name), [], false)
    case Click(i) =>
      // there is no button for an index outside the displayed list
      if 0 <= i < |Displayed(s)| then
        var sel := Merge(Merge(s.selection, "activeModelSource", Str(s.activeList)), "currentModelIndex", Num(i as real));
        var t := SendEffect(s.(selection := sel, canSend := true), s.canSend);
        Reaction(t.0, t.1, |Displayed(s)| < 2)
      else Reaction(s, [], false)
    case ControlChanged(b) => Reaction(s.(hasControl := b), [], false)
  }

  /** After a click on item `i`, item `j` is highlighted exactly when
      `j == i` and the item's folder is the name of the displayed list. */
  lemma HighlightAfterClick(s: State, i: int, j: int)
    requires 0 <= i < |Displayed(s)|
    ensures Highlighted(Step(s, Click(i)).state, j) <==> j == i && Displayed(s)[i].folder == s.activeList
  {
    var t := Step(s, Click(i)).state;
    assert Displayed(t) == Displayed(s);
    if Highlighted(t, j) {
      assert Num(j as real) == Num(i as real);
    }
  }

  function Run(s: State, es: seq<Input>): Reaction
  {
    if |es| == 0 then Reaction(s, [], false)
    else
      var prev := Run(s, es[..|es| - 1]);
      var step := Step(prev.state, es[|es| - 1]);
      Reaction(step.state, prev.emits + step.emits, prev.autoSwitchOff || step.autoSwitchOff)
  }

  /** A click made without control leaves `canSend` set, and from then on
      the component never publishes again, even after it gains control:
      the effect only runs when the flag changes. */
  lemma {:induction false} StuckAfterClickWithoutControl(s: State, es: seq<Input>)
    requires s.canSend
    ensures Run(s, es).emits == [] && Run(s, es).state.canSend
  {
    if |es| > 0 {
      StuckAfterClickWithoutControl(s, es[..|es| - 1]);
    }
  }

  /** From a fresh component, every click in control publishes exactly once,
      as long as no click was made without control. */
  lemma {:induction false} OnePublishPerClick(tuke: seq<Entry>, user: seq<Entry>, es: seq<Input>)
    requires forall k :: 0 <= k < |es| ==> es[k].ControlChanged? ==> es[k].hasControl
    ensures var r := Run(Initial(tuke, user, true), es);
            !r.state.canSend && r.state.hasControl
            && |r.emits| == Clicks(Initial(tuke, user, true), es)
  {
    if |es| > 0 {
      OnePublishPerClick(tuke, user, es[..|es| - 1]);
    }
  }

  /** Clicks on an existing item in `es`, counted against the list displayed
      at the time. */
  function Clicks(s: State, es: seq<Input>): nat
  {
    if |es| == 0 then 0
    else
      var prev := Run(s, es[..|es| - 1]).state;
      var e := es[|es| - 1];
      Clicks(s, es[..|es| - 1]) + (if e.Click? && 0 <= e.item < |Displayed(prev)| then 1 else 0)
  }
}
