/** Translation of one native X event into the SDL events the bridge pushes
    for it (sdlx11.cpp, the body of the drain loop in `SDL_PollEvent`). */
module XEvents {
  import opened Wrappers

  /** X atoms are 29-bit resource identifiers, so the `(int)` cast applied
      before comparing them with the ClientMessage payload is exact. */
  type Atom = a: int | 0 <= a < 0x2000_0000

  /** A pointer button number; the X protocol carries it in one byte. */
  type XButton = b: int | 0 <= b < 256

  /** The native events the bridge distinguishes. `OtherXEvent` is any
      event of another type (motion, key, expose, ...): it falls through
      both the button test and the ClientMessage switch, and its type
      code, which would only duplicate the constructors above, is not
      carried. */
  datatype XEvent =
    | ButtonPress(button: XButton)
    | ButtonRelease(button: XButton)
    | ClientMessage(messageType: Atom, data0: int)
    | OtherXEvent

  /** What the loop body reads from outside: `SDL_GetWindowID(sdl_window_)`
      and the two atoms `XInternAtom` returns for "WM_PROTOCOLS" and
      "WM_DELETE_WINDOW". */
  datatype Env = Env(windowId: nat, wmProtocols: Atom, wmDeleteWindow: Atom)

  datatype WheelDirection = WheelNormal | WheelFlipped

  /** The generic (SDL) events. `SdlOwnEvent` stands for every other event
      SDL delivers by itself (keyboard, motion, generic window events); a
      QUIT that SDL raises on its own is `Quit` like the bridge's. */
  datatype SdlEvent =
    | MouseWheel(windowId: nat, which: nat, x: int, y: int, direction: WheelDirection)
    | MouseButtonDown(windowId: nat, button: int)
    | MouseButtonUp(windowId: nat, button: int)
    | WindowClose(windowId: nat)
    | Quit
    | SdlOwnEvent

  /** SDL's numbers for the two extra buttons (`SDL_BUTTON_X1`, `SDL_BUTTON_X2`). */
  const ButtonX1 := 4
  const ButtonX2 := 5

  /** X reports the vertical and horizontal wheel as buttons 4 to 7. */
  predicate IsWheelCode(b: int) {
    3 < b < 8
  }

  /** The X button number an SDL button number stems from: the inverse of
      the downward remap that closes the gap left by the wheel codes. */
  function XButtonOf(sdlButton: int): int {
    if sdlButton >= ButtonX1 then sdlButton + (8 - ButtonX1) else sdlButton
  }

  /** SDL button number for a non-wheel X button: 1-3 pass through, codes
      above 7 move down by `8 - SDL_BUTTON_X1`. */
  function SdlButton(b: XButton): (r: int)
    requires !IsWheelCode(b)
    ensures XButtonOf(r) == b
    ensures b <= 3 ==> r == b
    ensures b == 8 ==> r == ButtonX1
    ensures b == 9 ==> r == ButtonX2
    ensures 0 <= r < 252
  {
    if b > 7 then b - (8 - ButtonX1) else b
  }

  /** The wheel code a (x, y) wheel step comes from. */
  function WheelCodeOf(x: int, y: int): XButton {
    if y > 0 then 4 else if y < 0 then 5 else if x > 0 then 6 else 7
  }

  /** The wheel event synthesised for the release of wheel button `b`. */
  function Wheel(b: XButton, windowId: nat): (e: SdlEvent)
    requires IsWheelCode(b)
    ensures e.MouseWheel? && e.windowId == windowId && e.which == 0
    ensures WheelCodeOf(e.x, e.y) == b
    ensures (e.x == 0) != (e.y == 0) && -1 <= e.x <= 1 && -1 <= e.y <= 1
    ensures e.direction == WheelFlipped <==> b % 2 == 1
  {
    var xticks := if b == 6 then 1 else if b == 7 then -1 else 0;
    var yticks := if b == 4 then 1 else if b == 5 then -1 else 0;
    MouseWheel(windowId, 0, xticks, yticks, if b % 2 == 1 then WheelFlipped else WheelNormal)
  }

  /** True for the ICCCM close request: a ClientMessage of type WM_PROTOCOLS
      whose first data word is WM_DELETE_WINDOW. */
  predicate IsDeleteRequest(e: XEvent, env: Env) {
    e.ClientMessage? && e.messageType == env.wmProtocols && e.data0 == env.wmDeleteWindow
  }

  /** The events for which the bridge pushes nothing. */
  predicate Dropped(e: XEvent, env: Env) {
    || (e.ButtonPress? && IsWheelCode(e.button))
    || (e.ClientMessage? && !IsDeleteRequest(e, env))
    || e.OtherXEvent?
  }

  /** The native event a pushed SDL event was made from, if it is one the
      bridge makes at all. */
  function Origin(s: SdlEvent, env: Env): Option<XEvent> {
    match s
    case MouseWheel(_, _, x, y, _) => Some(ButtonRelease(WheelCodeOf(x, y)))
    case MouseButtonDown(_, b) =>
      if 0 <= XButtonOf(b) < 256 then Some(ButtonPress(XButtonOf(b))) else None
    case MouseButtonUp(_, b) =>
      if 0 <= XButtonOf(b) < 256 then Some(ButtonRelease(XButtonOf(b))) else None
    case WindowClose(_) => Some(ClientMessage(env.wmProtocols, env.wmDeleteWindow))
    case Quit => Some(ClientMessage(env.wmProtocols, env.wmDeleteWindow))
    case SdlOwnEvent => None
  }

  /** The SDL events pushed, in order, for one native event. */
  function Translate(e: XEvent, env: Env): (r: seq<SdlEvent>)
    ensures |r| == 0 <==> Dropped(e, env)
    ensures forall i :: 0 <= i < |r| ==> Origin(r[i], env) == Some(e)
    ensures IsDeleteRequest(e, env) ==> r == [WindowClose(env.windowId), Quit]
    ensures !IsDeleteRequest(e, env) ==> |r| <= 1
    ensures (e.ButtonPress? || e.ButtonRelease?) && !IsWheelCode(e.button) ==>
              |r| == 1 && (r[0].MouseButtonDown? <==> e.ButtonPress?)
              && (r[0].MouseButtonUp? <==> e.ButtonRelease?)
              && r[0].windowId == env.windowId
    ensures e.ButtonRelease? && IsWheelCode(e.button) ==>
              |r| == 1 && r[0].MouseWheel? && r[0].windowId == env.windowId
  {
    match e
    case ButtonPress(b) =>
      if IsWheelCode(b) then [] else [MouseButtonDown(env.windowId, SdlButton(b))]
    case ButtonRelease(b) =>
      if IsWheelCode(b) then [Wheel(b, env.windowId)]
      else [MouseButtonUp(env.windowId, SdlButton(b))]
    case ClientMessage(t, d0) =>
      if t == env.wmProtocols && d0 == env.wmDeleteWindow
      then [WindowClose(env.windowId), Quit]
      else []
    case OtherXEvent => []
  }

  /** The SDL events pushed, in order, for a run of native events. */
  function TranslateAll(xs: seq<XEvent>, env: Env): (r: seq<SdlEvent>)
    ensures |r| <= 2 * |xs|
  {
    if |xs| == 0 then [] else Translate(xs[0], env) + TranslateAll(xs[1..], env)
  }

  /** A run of native events pushes nothing exactly when each of its
      events is one the bridge drops. */
  lemma {:induction false} NothingPushedIffAllDropped(xs: seq<XEvent>, env: Env)
    ensures TranslateAll(xs, env) == [] <==> forall i :: 0 <= i < |xs| ==> Dropped(xs[i], env)
    decreases |xs|
  {
    if |xs| > 0 {
      NothingPushedIffAllDropped(xs[1..], env);
      assert forall i :: 1 <= i < |xs| ==> xs[i] == xs[1..][i - 1];
    }
  }

  /** Translation respects order: the events of an earlier native event
      come before those of a later one. */
  lemma {:induction false} TranslateAllAppend(xs: seq<XEvent>, ys: seq<XEvent>, env: Env)
    ensures TranslateAll(xs + ys, env) == TranslateAll(xs, env) + TranslateAll(ys, env)
    decreases |xs|
  {
    if |xs| == 0 {
      assert xs + ys == ys;
    } else {
      assert (xs + ys)[1..] == xs[1..] + ys;
      TranslateAllAppend(xs[1..], ys, env);
    }
  }

  function CountQuits(s: seq<SdlEvent>): nat {
    if |s| == 0 then 0 else (if s[0] == Quit then 1 else 0) + CountQuits(s[1..])
  }

  function CountDeleteRequests(xs: seq<XEvent>, env: Env): nat {
    if |xs| == 0 then 0
    else (if IsDeleteRequest(xs[0], env) then 1 else 0) + CountDeleteRequests(xs[1..], env)
  }

  lemma {:induction false} CountQuitsAppend(a: seq<SdlEvent>, b: seq<SdlEvent>)
    ensures CountQuits(a + b) == CountQuits(a) + CountQuits(b)
    decreases |a|
  {
    if |a| == 0 {
      assert a + b == b;
    } else {
      assert (a + b)[1..] == a[1..] + b;
      CountQuitsAppend(a[1..], b);
    }
  }

  /** Exactly one SDL_QUIT is pushed per close request, and none otherwise. */
  lemma {:induction false} QuitPerDeleteRequest(xs: seq<XEvent>, env: Env)
    ensures CountQuits(TranslateAll(xs, env)) == CountDeleteRequests(xs, env)
    decreases |xs|
  {
    if |xs| > 0 {
      var t := Translate(xs[0], env);
      CountQuitsAppend(t, TranslateAll(xs[1..], env));
      QuitPerDeleteRequest(xs[1..], env);
      if IsDeleteRequest(xs[0], env) {
        assert CountQuits(t) == 1 by {
          assert t == [WindowClose(env.windowId), Quit];
          assert t[1..] == [Quit];
        }
      } else {
        assert CountQuits(t) == 0 by {
          if |t| == 1 {
            assert Origin(t[0], env) == Some(xs[0]);
            assert t[1..] == [];
          }
        }
      }
    }
  }

  /** Wheel buttons never produce a button event: every pushed button event
      stems from a button number outside 4-7, and every pushed wheel event
      from the release of one inside. */
  lemma {:induction false} NoButtonEventFromWheel(xs: seq<XEvent>, env: Env)
    ensures forall s :: s in TranslateAll(xs, env) && (s.MouseButtonDown? || s.MouseButtonUp?) ==>
              !IsWheelCode(XButtonOf(s.button))
    ensures forall s :: s in TranslateAll(xs, env) && s.MouseWheel? ==>
              exists i :: 0 <= i < |xs| && xs[i] == ButtonRelease(WheelCodeOf(s.x, s.y))
    decreases |xs|
  {
    if |xs| > 0 {
      NoButtonEventFromWheel(xs[1..], env);
      var t := Translate(xs[0], env);
      forall s | s in TranslateAll(xs, env) && s.MouseWheel?
        ensures exists i :: 0 <= i < |xs| && xs[i] == ButtonRelease(WheelCodeOf(s.x, s.y))
      {
        if s in t {
          assert xs[0] == ButtonRelease(WheelCodeOf(s.x, s.y));
        } else {
          assert s in TranslateAll(xs[1..], env);
          var i :| 0 <= i < |xs[1..]| && xs[1..][i] == ButtonRelease(WheelCodeOf(s.x, s.y));
          assert xs[i + 1] == xs[1..][i];
        }
      }
    }
  }
}
