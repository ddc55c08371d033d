/** The X event masks the bridge selects on its window: once at creation
    (sdlx11.cpp:64-68) and again after SDL has adopted the window
    (sdlx11.cpp:185-189), this time without the button masks, whose events
    the bridge's own `SDL_PollEvent` translates. */
module EventMask {

  /** The Xlib mask flags that occur in either mask. */
  datatype Flag =
    | KeyPress | KeyRelease | ButtonPress | ButtonRelease
    | EnterWindow | LeaveWindow | PointerMotion | KeymapState
    | Exposure | StructureNotify | FocusChange | PropertyChange

  /** Each flag's bit position in Xlib's `long event_mask` (X.h): the
      flag's mask constant is `1L << BitIndex(f)`. */
  function BitIndex(f: Flag): nat {
    match f
    case KeyPress => 0
    case KeyRelease => 1
    case ButtonPress => 2
    case ButtonRelease => 3
    case EnterWindow => 4
    case LeaveWindow => 5
    case PointerMotion => 6
    case KeymapState => 14
    case Exposure => 15
    case StructureNotify => 17
    case FocusChange => 21
    case PropertyChange => 22
  }

  /** The set bits of the value of a `|`-expression listing the flags `fs`. */
  function Mask(fs: seq<Flag>): set<nat> {
    if |fs| == 0 then {} else {BitIndex(fs[0])} + Mask(fs[1..])
  }

  predicate HasFlag(m: set<nat>, f: Flag) {
    BitIndex(f) in m
  }

  /** Distinct flags occupy distinct bits, all within a 32-bit `long`. */
  lemma BitsDistinct(f: Flag, g: Flag)
    ensures f != g <==> BitIndex(f) != BitIndex(g)
    ensures BitIndex(f) < 32
  {
  }

  /** A flag is set in the mask of a list exactly when it is listed, so
      listing a flag twice (as the creation mask does with the button
      masks) changes nothing. */
  lemma {:induction false} MaskHasFlag(fs: seq<Flag>, f: Flag)
    ensures HasFlag(Mask(fs), f) <==> f in fs
    decreases |fs|
  {
    if |fs| > 0 {
      BitsDistinct(fs[0], f);
      MaskHasFlag(fs[1..], f);
      assert f in fs <==> f == fs[0] || f in fs[1..];
    }
  }

  /** The creation mask as written, with the two button masks listed twice. */
  const CreationFlags: seq<Flag> := [
    FocusChange, EnterWindow, LeaveWindow,
    Exposure, ButtonPress, ButtonRelease,
    PointerMotion, KeyPress, KeyRelease,
    PropertyChange, StructureNotify,
    ButtonPress, ButtonRelease, KeymapState]

  /** The mask re-applied after `SDL_CreateWindowFrom`. */
  const ReappliedFlags: seq<Flag> := [
    FocusChange, EnterWindow, LeaveWindow,
    Exposure, KeyPress, KeyRelease, PointerMotion,
    PropertyChange, StructureNotify, KeymapState]

  /** The re-applied mask is the creation mask minus ButtonPressMask and
      ButtonReleaseMask: every other flag survives, and nothing is added. */
  lemma ReappliedIsCreationWithoutButtons(f: Flag)
    ensures HasFlag(Mask(ReappliedFlags), f) <==>
            HasFlag(Mask(CreationFlags), f) && f != ButtonPress && f != ButtonRelease
  {
    MaskHasFlag(ReappliedFlags, f);
    MaskHasFlag(CreationFlags, f);
    ReappliedSetIsCreationSetWithoutButtons();
    assert f in ReappliedFlags <==> f in (set g | g in ReappliedFlags);
    assert f in CreationFlags <==> f in (set g | g in CreationFlags);
  }

  /** The same relation on the flag sets. */
  lemma ReappliedSetIsCreationSetWithoutButtons()
    ensures (set f | f in ReappliedFlags) == (set f | f in CreationFlags) - {ButtonPress, ButtonRelease}
  {
  }
}
