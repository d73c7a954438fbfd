/** The double-Esc detector (doubleEscCanceller): which presses of a run cancel the task. */
module DoubleEsc {

  /** Points in time; 0 is the zero time, which stands for no remembered press. */
  type Time = int

  const ZERO_TIME: Time := 0
  const DOUBLE_ESC_CANCEL_WINDOW := 2_000_000_000

  datatype Action = Warn | Cancel

  class DoubleEscCanceller {
    const window: int
    var lastEsc: Time

    constructor (window: int)
      ensures this.window == Effective(window) && lastEsc == ZERO_TIME
      ensures this.window == if window > 0 then window else 2_000_000_000
    {
      this.window := if window <= 0 then DOUBLE_ESC_CANCEL_WINDOW else window;
      lastEsc := ZERO_TIME;
    }

    method Press(now: Time) returns (action: Action)
      modifies this
      ensures (action, lastEsc) == Pressed(window, old(lastEsc), now)
    {
      if lastEsc != ZERO_TIME && now - lastEsc <= window {
        lastEsc := ZERO_TIME;
        return Cancel;
      }
      lastEsc := now;
      return Warn;
    }
  }

  /** A run of presses on a fresh detector. */
  method PressAll(window: int, presses: seq<Time>) returns (actions: seq<Action>)
    ensures actions == Actions(Effective(window), presses)
  {
    var c := new DoubleEscCanceller(window);
    actions := [];
    for i := 0 to |presses|
      invariant actions == Actions(c.window, presses[..i]) && c.lastEsc == Remembered(c.window, presses[..i])
    {
      assert presses[..i + 1][..i] == presses[..i];
      var action := c.Press(presses[i]);
      actions := actions + [action];
    }
    assert presses[..|presses|] == presses;
  }

  /** A window that is not positive stands for the default one. */
  function Effective(window: int): (w: int)
    ensures w > 0
  {
    if window <= 0 then DOUBLE_ESC_CANCEL_WINDOW else window
  }

  // ---- The detector over runs ----------------------------------------------------------------

  function Pressed(window: int, lastEsc: Time, now: Time): (Action, Time) {
    if lastEsc != ZERO_TIME && now - lastEsc <= window then (Cancel, ZERO_TIME) else (Warn, now)
  }

  function Remembered(window: int, presses: seq<Time>): Time {
    if presses == [] then ZERO_TIME
    else Pressed(window, Remembered(window, presses[..|presses| - 1]), presses[|presses| - 1]).1
  }

  function Actions(window: int, presses: seq<Time>): (r: seq<Action>)
    ensures |r| == |presses|
  {
    if presses == [] then []
    else
      var init := presses[..|presses| - 1];
      Actions(window, init) + [Pressed(window, Remembered(window, init), presses[|presses| - 1]).0]
  }

  /** A second press cancels exactly when it comes within the window, its last moment included. */
  lemma SecondPress(window: int, first: Time, second: Time)
    requires first != 0 && second != 0
    ensures Actions(Effective(window), [first, second]) ==
            [Warn, if second - first <= (if window > 0 then window else 2_000_000_000) then Cancel else Warn]
  {
    var w := Effective(window);
    assert [first, second][..1] == [first] && [first][..0] == [];
    assert Actions(w, [first]) == [Warn] && Remembered(w, [first]) == first;
  }

  // ---- Bursts ----------------------------------------------------------------------------------

  /** The lengths of the maximal bursts whose consecutive presses are within the window. */
  function Bursts(window: int, presses: seq<Time>): (r: seq<nat>)
    ensures presses == [] <==> r == []
    ensures forall i | 0 <= i < |r| :: r[i] > 0
  {
    if presses == [] then []
    else
      var init, now := presses[..|presses| - 1], presses[|presses| - 1];
      var before := Bursts(window, init);
      if init != [] && now - init[|init| - 1] <= window then
        before[..|before| - 1] + [before[|before| - 1] + 1]
      else before + [1]
  }

  /** The place of the last press in its burst, counted from one. */
  function Place(window: int, presses: seq<Time>): nat
    requires presses != []
  {
    Bursts(window, presses)[|Bursts(window, presses)| - 1]
  }

  predicate RealTimes(presses: seq<Time>) {
    forall i | 0 <= i < |presses| :: presses[i] != ZERO_TIME
  }

  /** A press is remembered exactly when its place in the burst is odd. */
  lemma {:induction false} RememberedIffOdd(window: int, presses: seq<Time>)
    requires RealTimes(presses) && presses != []
    ensures Remembered(window, presses) ==
            if Place(window, presses) % 2 == 1 then presses[|presses| - 1] else ZERO_TIME
    ensures Actions(window, presses)[|presses| - 1] == if Place(window, presses) % 2 == 0 then Cancel else Warn
  {
    var init := presses[..|presses| - 1];
    if init != [] {
      RememberedIffOdd(window, init);
    }
  }

  lemma {:induction false} ActionsOfPrefix(window: int, presses: seq<Time>, n: nat)
    requires n <= |presses|
    ensures Actions(window, presses[..n]) == Actions(window, presses)[..n]
    decreases |presses|
  {
    if n == |presses| {
      assert presses[..n] == presses;
    } else {
      var init := presses[..|presses| - 1];
      ActionsOfPrefix(window, init, n);
      assert init[..n] == presses[..n];
    }
  }

  /** The cancelling presses of a run are exactly those at even places of their bursts. */
  lemma CancelsAtEvenPlaces(window: int, presses: seq<Time>, i: nat)
    requires RealTimes(presses) && i < |presses|
    ensures Actions(window, presses)[i] == Cancel <==> Place(window, presses[..i + 1]) % 2 == 0
  {
    RememberedIffOdd(window, presses[..i + 1]);
    ActionsOfPrefix(window, presses, i + 1);
  }

  /** No two presses in a row cancel. */
  lemma NoTwoCancelsInARow(window: int, presses: seq<Time>, i: nat)
    requires RealTimes(presses) && i + 1 < |presses|
    ensures !(Actions(window, presses)[i] == Cancel && Actions(window, presses)[i + 1] == Cancel)
  {
    CancelsAtEvenPlaces(window, presses, i);
    CancelsAtEvenPlaces(window, presses, i + 1);
    assert presses[..i + 2][..i + 1] == presses[..i + 1];
  }

  function Cancels(actions: seq<Action>): nat {
    if actions == [] then 0
    else Cancels(actions[..|actions| - 1]) + if actions[|actions| - 1] == Cancel then 1 else 0
  }

  function Halves(bursts: seq<nat>): nat {
    if bursts == [] then 0 else Halves(bursts[..|bursts| - 1]) + bursts[|bursts| - 1] / 2
  }

  /** A burst of n presses cancels floor(n / 2) times. */
  lemma {:induction false} CancelsPerBurst(window: int, presses: seq<Time>)
    requires RealTimes(presses)
    ensures Cancels(Actions(window, presses)) == Halves(Bursts(window, presses))
  {
    if presses != [] {
      var init := presses[..|presses| - 1];
      CancelsPerBurst(window, init);
      RememberedIffOdd(window, presses);
      var actions, before, after := Actions(window, presses), Bursts(window, init), Bursts(window, presses);
      assert actions[..|actions| - 1] == Actions(window, init);
      if |after| == |before| {
        assert after[..|after| - 1] == before[..|before| - 1];
      } else {
        assert after[..|after| - 1] == before;
      }
    }
  }
}
