/** The `SDLx11` object's four handles: the constructor (sdlx11.hpp:92),
    `SDL_Create`/`SDL_CreateWindowEx` as a success-or-exit outcome
    (sdlx11.cpp:9-218), `SDL_Destroy` (sdlx11.cpp:220-230) and the
    destructor that calls it again (sdlx11.hpp:94). */
module Lifecycle {
  import opened Wrappers
  import FbConfig

  /** `xdisplay_`, `xwindow_`, `renderer_` and `sdl_window_`; 0 is NULL. */
  datatype Handles = Handles(display: nat, xwindow: nat, renderer: nat, sdlWindow: nat)

  predicate AllNull(h: Handles) {
    h.display == 0 && h.xwindow == 0 && h.renderer == 0 && h.sdlWindow == 0
  }

  /** The window is only ever created on an open display, and the renderer
      only for an adopted SDL window. */
  predicate Valid(h: Handles) {
    && (h.xwindow != 0 ==> h.display != 0)
    && (h.renderer != 0 ==> h.sdlWindow != 0)
  }

  /** The releases `SDL_Destroy` performs. */
  datatype Release =
    | DestroyRenderer(renderer: nat)
    | DestroyWindow(display: nat, xwindow: nat)
    | CloseDisplay(display: nat)

  /** Renderer before window before display. */
  function Rank(r: Release): nat {
    match r
    case DestroyRenderer(_) => 0
    case DestroyWindow(_, _) => 1
    case CloseDisplay(_) => 2
  }

  predicate InReleaseOrder(rs: seq<Release>) {
    forall i, j :: 0 <= i < j < |rs| ==> Rank(rs[i]) < Rank(rs[j])
  }

  datatype Teardown = Teardown(handles: Handles, released: seq<Release>)

  /** The constructor's member initialisers. */
  function Construct(): (h: Handles)
    ensures Valid(h)
    ensures Destroy(h) == Teardown(h, [])
  {
    Handles(0, 0, 0, 0)
  }

  /** `SDL_Destroy`: release renderer, window and display, each only when
      set, then null all four handles. */
  function Destroy(h: Handles): (t: Teardown)
    ensures AllNull(t.handles) && Valid(t.handles)
    ensures DestroyRenderer(h.renderer) in t.released <==> h.renderer != 0
    ensures DestroyWindow(h.display, h.xwindow) in t.released <==> h.xwindow != 0
    ensures CloseDisplay(h.display) in t.released <==> h.display != 0
    ensures |t.released| == (if h.renderer != 0 then 1 else 0)
                           + (if h.xwindow != 0 then 1 else 0)
                           + (if h.display != 0 then 1 else 0)
    ensures InReleaseOrder(t.released)
    ensures Valid(h) ==> forall r :: r in t.released && r.DestroyWindow? ==> r.display != 0
  {
    var rs := (if h.renderer != 0 then [DestroyRenderer(h.renderer)] else [])
            + (if h.xwindow != 0 then [DestroyWindow(h.display, h.xwindow)] else [])
            + (if h.display != 0 then [CloseDisplay(h.display)] else []);
    Teardown(Handles(0, 0, 0, 0), rs)
  }

  /** A second `SDL_Destroy` releases nothing and changes nothing. */
  lemma DestroyIdempotent(h: Handles)
    ensures Destroy(Destroy(h).handles) == Teardown(Destroy(h).handles, [])
  {
  }

  /** `n` calls of `SDL_Destroy` in a row, with their releases concatenated. */
  function DestroyTimes(h: Handles, n: nat): (t: Teardown)
    ensures n >= 1 ==> AllNull(t.handles)
    ensures forall r :: r in t.released ==> r in Destroy(h).released
    decreases n
  {
    if n == 0 then Teardown(h, [])
    else
      var first := Destroy(h);
      var rest := DestroyTimes(first.handles, n - 1);
      Teardown(rest.handles, first.released + rest.released)
  }

  /** However often `SDL_Destroy` runs (from `quit()`, from the destructor,
      or both), the releases are those of the first call: each resource is
      released at most once. */
  lemma {:induction false} DestroyTimesReleasesOnce(h: Handles, n: nat)
    requires n >= 1
    ensures DestroyTimes(h, n) == Destroy(h)
    decreases n
  {
    if n > 1 {
      DestroyTimesFromNull(Destroy(h).handles, n - 1);
      assert Destroy(h).released + [] == Destroy(h).released;
    }
  }

  lemma {:induction false} DestroyTimesFromNull(h: Handles, n: nat)
    requires AllNull(h)
    ensures DestroyTimes(h, n) == Teardown(h, [])
    decreases n
  {
    if n > 0 {
      DestroyTimesFromNull(Destroy(h).handles, n - 1);
    }
  }

  /** Why startup ends the process with `exit(1)`. */
  datatype Fatal =
    | SdlInitFailed        // SDL_Init
    | NoDisplay            // XOpenDisplay
    | NoFbConfig           // no usable frame-buffer config
    | NoGlContext          // glXCreateContextAttribsARB
    | MakeCurrentFailed    // glXMakeCurrent
    | AdoptFailed          // SDL_CreateWindowFrom
    | NoRenderer           // SDL_CreateRenderer

  /** What the libraries answer during startup: the handle values they
      return (0 for failure) and the outcome of the calls that report
      success as a flag. `XCreateWindow` allocates its id on the client and
      is not checked, so `xwindow` is never 0. */
  datatype Platform = Platform(
    sdlInitOk: bool,
    display: nat,
    candidates: seq<FbConfig.Candidate>,
    xwindow: nat,
    glContextOk: bool,
    makeCurrentOk: bool,
    sdlWindow: nat,
    renderer: nat)

  /** Whether the startup step that can fail with `f` succeeds. */
  predicate StepSucceeds(p: Platform, f: Fatal) {
    match f
    case SdlInitFailed => p.sdlInitOk
    case NoDisplay => p.display != 0
    case NoFbConfig => FbConfig.Select(p.candidates).config.Some?
    case NoGlContext => p.glContextOk
    case MakeCurrentFailed => p.makeCurrentOk
    case AdoptFailed => p.sdlWindow != 0
    case NoRenderer => p.renderer != 0
  }

  /** The order in which the steps run. */
  function StepOrder(f: Fatal): nat {
    match f
    case SdlInitFailed => 0
    case NoDisplay => 1
    case NoFbConfig => 2
    case NoGlContext => 3
    case MakeCurrentFailed => 4
    case AdoptFailed => 5
    case NoRenderer => 6
  }

  /** `SDL_Create` (which calls `SDL_CreateWindowEx`) on a fresh object:
      either every step succeeds and all four handles are set, or the
      process exits at the first step that fails. */
  function Create(p: Platform): (r: Result<Handles, Fatal>)
    requires p.xwindow != 0
    ensures r.Ok? <==> forall f :: StepSucceeds(p, f)
    ensures r.Ok? ==> r.value == Handles(p.display, p.xwindow, p.renderer, p.sdlWindow)
                      && Valid(r.value) && r.value.display != 0 && r.value.renderer != 0
    ensures r.Err? ==> !StepSucceeds(p, r.error)
                       && forall f :: StepOrder(f) < StepOrder(r.error) ==> StepSucceeds(p, f)
  {
    var r :=
      if !p.sdlInitOk then Err(SdlInitFailed)
      else if p.display == 0 then Err(NoDisplay)
      else if FbConfig.Select(p.candidates).config.None? then Err(NoFbConfig)
      else if !p.glContextOk then Err(NoGlContext)
      else if !p.makeCurrentOk then Err(MakeCurrentFailed)
      else if p.sdlWindow == 0 then Err(AdoptFailed)
      else if p.renderer == 0 then Err(NoRenderer)
      else Ok(Handles(p.display, p.xwindow, p.renderer, p.sdlWindow));
    assert r.Err? ==> !StepSucceeds(p, r.error);
    r
  }

  /** After a successful startup, the `n` calls of `SDL_Destroy` that
      `quit()` and the destructor make together release renderer, window
      and display exactly once each, in that order, and leave every handle
      NULL. */
  lemma CreateThenTeardown(p: Platform, n: nat)
    requires p.xwindow != 0
    requires Create(p).Ok?
    requires n >= 1
    ensures var h := Create(p).value;
            DestroyTimes(h, n) ==
              Teardown(Construct(), [DestroyRenderer(p.renderer), DestroyWindow(p.display, p.xwindow), CloseDisplay(p.display)])
  {
    DestroyTimesReleasesOnce(Create(p).value, n);
  }
}
