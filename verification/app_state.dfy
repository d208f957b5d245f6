/** The sampling state of src/app.tsx: the support flag, the current colour and
    the capped, newest-first history, with the transitions that change them. */
module App {
  import Strings

  /** Capacity of the history (src/app.tsx line 19). */
  const MAX_HISTORY_LENGTH: nat := 50

  datatype Option<T> = None | Some(value: T)

  /** One history record `{id, color}`. The id is the capture time as a
      string; two captures in the same millisecond share it. */
  datatype HistoryEntry = HistoryEntry(id: string, color: string)

  /** What the browser's EyeDropper does when `GetEyeDropper` asks it. */
  datatype DropperOutcome =
    | NoEyeDropper            // no `window` or no `window.EyeDropper`
    | Rejected                // `eyeDropper.open()` rejects (cancelled or failed)
    | Picked(sRGBHex: string) // `open()` resolves with this colour

  /** How the promise of `GetEyeDropper` settles: a value, possibly `undefined`,
      or a rejection. */
  datatype Settled = Resolved(value: Option<string>) | Threw

  /** `GetEyeDropper()` (lines 25-33) as the outcome it hands back: `undefined`
      without the API, the rejection passed on, otherwise the picked colour
      upper-cased character by character. */
  function GetEyeDropper(o: DropperOutcome): (r: Settled)
    ensures r == Resolved(None) <==> o.NoEyeDropper?
    ensures r.Threw? <==> o.Rejected?
    ensures o.Picked? ==>
              && r.Resolved? && r.value.Some?
              && |r.value.value| == |o.sRGBHex|
              && (forall i :: 0 <= i < |o.sRGBHex| ==>
                    r.value.value[i] == Strings.UpperChar(o.sRGBHex[i]))
              && Strings.HasNoLower(r.value.value)
  {
    match o
    case NoEyeDropper => Resolved(None)
    case Rejected => Threw
    case Picked(hex) => Resolved(Some(Strings.ToUpper(hex)))
  }

  /** The updater handed to `setHistory` (lines 156-168): the new entry goes in
      front of the old history and, when that passes the capacity, the last
      (oldest) entry is popped. */
  method HistoryUpdate(h: seq<HistoryEntry>, id: string, color: string)
    returns (newH: seq<HistoryEntry>)
    ensures |newH| > 0 && newH[0] == HistoryEntry(id, color)
    ensures newH[1..] <= h
    ensures |newH| == if |h| < MAX_HISTORY_LENGTH then |h| + 1 else |h|
    ensures |h| < MAX_HISTORY_LENGTH ==> newH[1..] == h
    ensures |h| == MAX_HISTORY_LENGTH ==>
      |newH| == MAX_HISTORY_LENGTH && newH[1..] == h[..MAX_HISTORY_LENGTH - 1]
    ensures |h| <= MAX_HISTORY_LENGTH ==> |newH| <= MAX_HISTORY_LENGTH
  {
    newH := [HistoryEntry(id, color)] + h;
    if |newH| > MAX_HISTORY_LENGTH {
      newH := newH[..|newH| - 1]; // newH.pop()
    }
  }

  /** True when a capture stores something: exactly when `GetEyeDropper`
      resolves to a truthy value, a non-empty string (line 154). */
  predicate Stores(o: DropperOutcome): (b: bool)
    ensures b <==> var r := GetEyeDropper(o);
      r.Resolved? && r.value.Some? && r.value.value != ""
  {
    o.Picked? && o.sRGBHex != ""
  }

  /** The three state cells of src/state.ts. */
  class AppState {
    var support: bool
    var currentColor: Option<string>
    var history: seq<HistoryEntry>

    /** The history stays within capacity and holds only non-empty,
        upper-cased colours. */
    ghost predicate Valid()
      reads this
    {
      |history| <= MAX_HISTORY_LENGTH &&
      forall i :: 0 <= i < |history| ==>
        history[i].color != "" && Strings.HasNoLower(history[i].color)
    }

    /** The initial values (src/state.ts lines 3-10). */
    constructor ()
      ensures Valid()
      ensures support && currentColor == None && history == []
    {
      support := true;
      currentColor := None;
      history := [];
    }

    /** The `SupportBanner` effect (lines 94-98): the flag is cleared when the
        API is absent and is never set back to true. */
    method ProbeSupport(eyeDropperInWindow: bool)
      modifies this`support
      ensures !eyeDropperInWindow ==> !support
      ensures eyeDropperInWindow ==> support == old(support)
      ensures support ==> old(support)
    {
      if !eyeDropperInWindow {
        support := false;
      }
    }

    /** Clicking a `ColorTag` (lines 136-138). A tag with an empty colour renders
        nothing (line 127), so there is nothing to click. */
    method SelectTag(color: string)
      modifies this`currentColor
      ensures color != "" ==> currentColor == Some(color)
      ensures color == "" ==> currentColor == old(currentColor)
      ensures history == old(history) && support == old(support)
    {
      if color != "" {
        currentColor := Some(color);
      }
    }

    /** `getRes` (lines 151-171), one capture taken as a single step. `now` is
        `Date.now().toString()`. On a non-empty pick the upper-cased colour
        becomes current and is put in front of the history; anything else,
        including a rejection swallowed by the `catch`, changes nothing. */
    method GetRes(outcome: DropperOutcome, now: string)
      requires Valid()
      modifies this`currentColor, this`history
      ensures Valid()
      ensures support == old(support)
      ensures Stores(outcome) ==>
        var res := Strings.ToUpper(outcome.sRGBHex);
        && currentColor == Some(res)
        && |history| == (if |old(history)| < MAX_HISTORY_LENGTH then |old(history)| + 1 else MAX_HISTORY_LENGTH)
        && history[0] == HistoryEntry(now, res)
        && history[1..] <= old(history)
      ensures !Stores(outcome) ==>
        currentColor == old(currentColor) && history == old(history)
    {
      match GetEyeDropper(outcome)
      case Threw =>
      case Resolved(None) =>
      case Resolved(Some(res)) =>
        if res != "" {
          currentColor := Some(res);
          history := HistoryUpdate(history, now, res);
          assert history[1..] <= old(history);
        }
    }
  }

  /** Two picks into a fresh state leave the newest first, in upper case. */
  method TwoCaptures()
  {
    var app := new AppState();
    app.GetRes(Picked("#ff0000"), "1");
    app.GetRes(Picked("#00ff00"), "2");
    assert Strings.ToUpper("#ff0000") == "#FF0000";
    assert Strings.ToUpper("#00ff00") == "#00FF00";
    assert app.history == [HistoryEntry("2", "#00FF00"), HistoryEntry("1", "#FF0000")];
    assert app.currentColor == Some("#00FF00");
  }
}
