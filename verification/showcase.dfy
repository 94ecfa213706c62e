/** The public showcase of pages/p3/ModelPage.tsx: a random first model and
    a different random next one, a 20-second rotation through the catalog
    and a one-second countdown. `Math.random()` is a parameter: a sequence
    of draws, each in [0, 1). */
module Showcase {
  import opened Base
  import opened Relay

  const ChangeInterval: int := 20

  /** `Math.floor(draw * n)`. */
  function Pick(draw: real, n: nat): (i: int)
    requires 0.0 <= draw < 1.0 && n > 0
    ensures 0 <= i < n
  {
    var i := (draw * n as real).Floor;
    assert draw * n as real < n as real;
    i
  }

  predicate ValidDraws(draws: seq<real>)
  {
    forall k :: 0 <= k < |draws| ==> 0.0 <= draws[k] < 1.0
  }

  /** The `do … while (nextIndex === randomIndex)` loop fed `draws`: the
      first pick that differs from `start`, or none while the loop is still
      drawing when the draws run out. */
  function NextDraw(n: nat, start: int, draws: seq<real>): (r: Option<int>)
    requires n > 0 && ValidDraws(draws)
    ensures r.Some? ==> 0 <= r.value < n && r.value != start
  {
    if |draws| == 0 then None
    else
      var i := Pick(draws[0], n);
      if i != start then Some(i) else NextDraw(n, start, draws[1..])
  }

  /** With a single model every draw picks index 0, the start, so however
      many draws are made the loop never exits. */
  lemma SingleModelNeverExits(draws: seq<real>)
    requires ValidDraws(draws)
    ensures NextDraw(1, 0, draws).None?
  {
  }

  /** The pick with the loop entered only when a different model exists:
      one model is its own next. */
  function NextPick(n: nat, start: int, draws: seq<real>): (r: Option<int>)
    requires n > 0 && ValidDraws(draws)
    ensures n == 1 ==> r == Some(start)
    ensures n >= 2 && r.Some? ==> 0 <= r.value < n && r.value != start
  {
    if n < 2 then Some(start) else NextDraw(n, start, draws)
  }

  /** Once a draw differs from the start, the loop exits with it. */
  lemma {:induction false} NextPickFindsDifferentDraw(n: nat, start: int, draws: seq<real>, k: nat)
    requires n >= 2 && ValidDraws(draws) && k < |draws|
    requires Pick(draws[k], n) != start
    ensures NextPick(n, start, draws).Some?
  {
    if Pick(draws[0], n) == start {
      assert k > 0;
      assert ValidDraws(draws[1..]) by {
        forall j | 0 <= j < |draws[1..]| ensures 0.0 <= draws[1..][j] < 1.0 {
          assert draws[1..][j] == draws[j + 1];
        }
      }
      assert draws[1..][k - 1] == draws[k];
      NextPickFindsDifferentDraw(n, start, draws[1..], k - 1);
    }
  }

  /** The catalog, the model on screen, the model after it, the countdown. */
  datatype State = State(models: seq<Asset>, selected: Option<Asset>, next: Option<Asset>, countdown: int)

  const Initial: State := State([], None, None, ChangeInterval)

  /** The draws after the first are valid draws too. */
  lemma RestValid(draws: seq<real>)
    requires ValidDraws(draws) && |draws| > 0
    ensures ValidDraws(draws[1..])
  {
    forall j | 0 <= j < |draws[1..]| ensures 0.0 <= draws[1..][j] < 1.0 {
      assert draws[1..][j] == draws[j + 1];
    }
  }

  /** The reply of `fetchModels`: none when the request failed, for then
      it resolves to `undefined`. A failed fetch stores `undefined` as the
      catalog, `data.length` throws, and the interval effect's
      `models.length` throws on the next render, so the page is gone
      (none). Otherwise the catalog is loaded: with entries, a random start
      and a different random next drawn as in `NextDraw`. With a single
      entry the loop never exits, so `setNextModel` never runs and the next
      model stays as it was. */
  function Load(s: State, data: Option<seq<Asset>>, draws: seq<real>): (r: Option<State>)
    requires ValidDraws(draws) && |draws| > 0
    ensures r.None? <==> data.None?
    ensures r.Some? ==> r.value.models == data.value && r.value.countdown == s.countdown
    ensures r.Some? && |data.value| == 0 ==> r.value.selected == s.selected && r.value.next == s.next
    ensures r.Some? && |data.value| > 0 ==> r.value.selected.Some? && r.value.selected.value in data.value
    ensures r.Some? && r.value.next != s.next ==> r.value.next.Some? && r.value.next.value in data.value
    ensures r.Some? && |data.value| == 1 ==> r.value.selected == Some(data.value[0]) && r.value.next == s.next
  {
    match data
    case None => None
    case Some(d) =>
      if |d| == 0 then Some(s.(models := d))
      else
        var start := Pick(draws[0], |d|);
        RestValid(draws);
        var next := NextDraw(|d|, start, draws[1..]);
        Some(s.(models := d, selected := Some(d[start]), next := if next.Some? then Some(d[next.value]) else s.next))
  }

  /** The load with the loop entered only when a different model exists
      (`NextPick`): a single entry is its own next. */
  function LoadCorrected(s: State, data: seq<Asset>, draws: seq<real>): (r: State)
    requires ValidDraws(draws) && |draws| > 0
    ensures r.models == data && r.countdown == s.countdown
    ensures |data| == 0 ==> r.selected == s.selected && r.next == s.next
    ensures |data| > 0 ==> r.selected.Some? && r.selected.value in data
    ensures |data| > 1 && r.next.Some? ==> r.next.value in data
    ensures |data| == 1 ==> r.next == Some(data[0]) && r.selected == Some(data[0])
  {
    if |data| == 0 then s.(models := data)
    else
      var start := Pick(draws[0], |data|);
      RestValid(draws);
      var next := NextPick(|data|, start, draws[1..]);
      s.(models := data, selected := Some(data[start]), next := if next.Some? then Some(data[next.value]) else None)
  }

  /** The two loads differ only on a one-entry catalog, or when the draws
      run out before one differs from the start. */
  lemma LoadsAgreeWhenLoopExits(s: State, data: seq<Asset>, draws: seq<real>)
    requires ValidDraws(draws) && |draws| > 0
    requires LoadCorrected(s, data, draws).next.Some? && |data| != 1
    ensures Load(s, Some(data), draws) == Some(LoadCorrected(s, data, draws))
  {
    if |data| > 0 {
      RestValid(draws);
    }
  }

  /** `findIndex` of the entry whose URL is the next model's, or -1. */
  function Position(models: seq<Asset>, next: Option<Asset>): (i: int)
    ensures -1 <= i < |models|
    ensures i == -1 <==> next.None? || forall j :: 0 <= j < |models| ==> models[j].url != next.value.url
    ensures i >= 0 ==> next.Some? && models[i].url == next.value.url
    ensures i >= 0 ==> forall j :: 0 <= j < i ==> models[j].url != next.value.url
  {
    FindIndex(models, (m: Asset) => next.Some? && m.url == next.value.url)
  }

  /** The 20-second interval, scheduled only for a non-empty catalog: the
      next model is shown, and the entry after the next model's URL becomes
      the new next (entry 0 when that URL is not found); the countdown
      restarts. */
  function Rotate(s: State): (r: State)
    ensures |s.models| == 0 ==> r == s
    ensures |s.models| > 0 ==> r.selected == s.next && r.countdown == ChangeInterval && r.models == s.models
    ensures |s.models| > 0 ==> r.next.Some? && r.next.value in s.models
  {
    if |s.models| == 0 then s
    else
      var current := Position(s.models, s.next);
      var nextIndex := (current + 1) % |s.models|;
      s.(selected := s.next, next := Some(s.models[nextIndex]), countdown := ChangeInterval)
  }

  /** When the next model is entry `i` and no earlier entry shares its URL,
      rotation moves to entry `i + 1`, wrapping to 0 after the last; an
      unknown next model restarts at entry 0. */
  lemma RotateAdvances(s: State, i: int)
    requires 0 <= i < |s.models| && s.next == Some(s.models[i])
    requires forall j :: 0 <= j < i ==> s.models[j].url != s.models[i].url
    ensures Rotate(s).next == Some(s.models[(i + 1) % |s.models|])
    ensures Rotate(s).selected == Some(s.models[i])
  {
    assert Position(s.models, s.next) == i;
  }

  lemma RotateUnknownRestarts(s: State)
    requires |s.models| > 0
    requires s.next.None? || forall j :: 0 <= j < |s.models| ==> s.models[j].url != s.next.value.url
    ensures Rotate(s).next == Some(s.models[0])
  {
    var current := Position(s.models, s.next);
    assert current == -1;
    assert (current + 1) % |s.models| == 0;
  }

  /** The one-second countdown: down by one while positive, then back to 20. */
  function Countdown(c: int): (r: int)
    ensures c > 0 ==> r == c - 1
    ensures c <= 0 ==> r == ChangeInterval
    ensures 0 <= c <= ChangeInterval ==> 0 <= r <= ChangeInterval
  {
    if c > 0 then c - 1 else ChangeInterval
  }

  function Countdowns(c: int, k: nat): int
  {
    if k == 0 then c else Countdown(Countdowns(c, k - 1))
  }

  /** The countdown is periodic: 21 seconds bring it back to where it was. */
  lemma {:induction false} CountdownPeriod(c: int, k: nat)
    requires 0 <= c <= ChangeInterval
    ensures k <= c ==> Countdowns(c, k) == c - k
    ensures k == c + 1 ==> Countdowns(c, k) == ChangeInterval
  {
    if k > 0 {
      CountdownPeriod(c, k - 1);
    }
  }
}
