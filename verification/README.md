# Linux-Cat: the SDL/X11 bridge and the idle cat

A Dafny model of the core of Linux-Cat. The program is a desktop pet: a
32×32 sprite in a borderless, transparent X11 window that SDL renders
into. The model covers three pieces.

- **The `SDLx11` bridge** (`sdlx11.cpp`, `sdlx11.hpp`). Its
  `SDL_PollEvent` drains the native X queue. It translates mouse buttons,
  wheel clicks and the ICCCM close request (`WM_PROTOCOLS` /
  `WM_DELETE_WINDOW`, sections 4.1.2.7 and 4.2.8.1 of the ICCCM) into
  SDL events, then hands over to SDL's own poll. The model also covers:
  - the frame-buffer-config search in `SDL_CreateWindowEx`;
  - the two event masks it selects;
  - the startup sequence with its `exit(1)` paths;
  - the guarded release in `SDL_Destroy`.
- **The `Cat` sprite** (`main.cpp`). `Cat::update` picks an animation
  frame from the tick count (`SPEED` = 100 ticks per frame, four frames)
  and a sprite-sheet row from the state.
- **`MySDLx11App`** (`main.cpp`). It creates the window and runs the
  update/poll loop until an `SDL_QUIT` has been polled. Then it tears down
  through `quit()` and the destructor.

Modules, one per file:

| module | contents |
|---|---|
| `Wrappers` | `Option` and `Result` |
| `XEvents` | native and SDL events; translation of one native event |
| `Poll` | the X connection as a queue plus arrival batches; the drain loop; one `SDL_PollEvent` |
| `FbConfig` | the frame-buffer-config search, as written and corrected |
| `EventMask` | the two event masks, as sets of Xlib bit positions |
| `Animation` | `State`, `Cat`, `Cat::update` with C integer division |
| `Lifecycle` | the four handles, `SDL_Create`'s failure points, `SDL_Destroy` |
| `App` | the main loop and a whole run of `main` |

The X connection is two things:
- `queued`: Xlib's client-side event queue;
- `arriving`: batches the server delivers later. `XPending` reports the
  queue length while events are queued; only on an empty queue does it
  read the next batch, which may be empty, from the socket.

The drain loop calls `XPending` again on every round. So events that
arrive while it runs are read in the same call. The drain is therefore
not bounded by the count pending at entry.
`Poll.DrainReadsEveryNonEmptyBatch` states that when every arrival batch
is non-empty, the drain reads them all.

## Model

| member | source | states |
|---|---|---|
| XEvents.SdlButton | sdlx11.cpp:266-269 | Button codes 1-3 pass through; codes above 7 move down by `8 - SDL_BUTTON_X1`, so 8 and 9 become X1 and X2; the remap is undone by `XButtonOf`, so no two X buttons share an SDL number |
| XEvents.Wheel | sdlx11.cpp:246-263 | A wheel release gives a MOUSEWHEEL event with `which` 0 and exactly one axis at ±1; the code is recoverable from (x, y) (4: y=+1, 5: y=-1, 6: x=+1, 7: x=-1); the direction is FLIPPED exactly for odd codes |
| XEvents.Translate | sdlx11.cpp:240-292 | One native event pushes nothing exactly for a wheel press, a non-close ClientMessage and any other event type; every pushed event traces back to it; a close request pushes WINDOWEVENT(CLOSE) then QUIT; any other event pushes at most one; a non-wheel press/release pushes one DOWN/UP event; a wheel release pushes one MOUSEWHEEL |
| XEvents.TranslateAll | sdlx11.cpp:235-293 | The events pushed for a run of native events number at most two per native event |
| XEvents.NothingPushedIffAllDropped | sdlx11.cpp:240-292 | A run of native events pushes nothing exactly when every event in it is one the bridge drops |
| XEvents.TranslateAllAppend | sdlx11.cpp:235-293 | Translating two runs of native events one after the other gives the two translations concatenated: pushed events keep the order of their native events |
| XEvents.QuitPerDeleteRequest | sdlx11.cpp:276-290 | The number of QUIT events pushed for a run of native events equals the number of close requests in it |
| XEvents.NoButtonEventFromWheel | sdlx11.cpp:246-273 | No pushed button event stems from a wheel code; every pushed wheel event stems from the release of the wheel button it encodes |
| Poll.Pending | sdlx11.cpp:235 | `XPending` moves events from the server into the queue without losing, adding or reordering any |
| Poll.PendingReadsOnlyWhenQueueEmpty | sdlx11.cpp:235 | `XPending` never shrinks the queue; while events are queued it changes nothing; on an empty queue it takes exactly the next batch |
| Poll.Drain | sdlx11.cpp:235-293 | The drain loop, re-running `XPending` each round and translating each event it takes, ends with the native queue empty |
| Poll.DrainLeavesSuffix | sdlx11.cpp:235-238 | The arrival batches left after a drain are a suffix of those present at entry |
| Poll.DrainConserves | sdlx11.cpp:235-238 | After the drain the queue is empty, and the events read followed by what is still to arrive are exactly the backlog at entry |
| Poll.DrainReadsQueue | sdlx11.cpp:235-238 | Everything already queued at entry is read, first and in order |
| Poll.DrainPushesInOrder | sdlx11.cpp:235-293 | The drain appends the translations of the events it reads, in reading order, behind SDL's queue |
| Poll.DrainReadsEveryNonEmptyBatch | sdlx11.cpp:235 | Because `XPending` is re-checked on every round, a drain reads every arrival batch when each batch is non-empty |
| Poll.EmptyBatchEndsDrain | sdlx11.cpp:235 | On an empty queue, a pending check that finds nothing on the socket ends the drain with nothing read, leaving later batches for the next call |
| Poll.GenericPoll | sdlx11.cpp:295-296 | SDL's own poll returns nothing iff its queue and the pumped events are both empty; otherwise it returns the oldest, and the rest stay queued |
| Poll.PollEvent | sdlx11.cpp:232-297 | One poll keeps the display handle; on a NULL display it reads nothing; otherwise it empties the native queue, reading at least what was queued; nothing is lost; it returns the head of SDL's queue followed by the translations and the pumped events, and leaves the rest queued |
| Poll.PollReadsWholeQueue | sdlx11.cpp:232-297 | With nothing more due from the server, a poll on an open display reads exactly the queued events and returns the head of SDL's queue, their translations and the pumped events |
| Poll.PollWithoutDisplay | sdlx11.cpp:235-296 | With a NULL display a poll reads no native event, leaves the connection as it is, and returns what SDL's own poll returns |
| Poll.CloseRequestYieldsCloseThenQuit | sdlx11.cpp:278-296 | With one close request pending, successive polls return WINDOWEVENT(CLOSE) for the window, then QUIT, then nothing |
| FbConfig.Select | sdlx11.cpp:38-57 | The corrected search chooses the first candidate with a visual, a picture format and a positive alpha mask, or else the last candidate with a visual and a picture format; it chooses none exactly when no candidate has both; the visual used is the chosen config's own |
| FbConfig.Scan | sdlx11.cpp:38-51 | From any point of the loop where no earlier candidate had alpha and the stored config is the last usable one so far, the corrected loop ends on the config the selection rule names, with that config's own visual |
| FbConfig.ScanAsWritten | sdlx11.cpp:38-51 | The loop as written never clears a stored config, and ends either on the config stored at entry or on a usable candidate it examined |
| FbConfig.SelectAsWritten | sdlx11.cpp:38-57 | The loop as written stores no config exactly when no candidate has both a visual and a picture format, which is the `exit(1)` case |
| FbConfig.ScanAsWrittenPicksSameConfig | sdlx11.cpp:38-51 | From any point of the loop, the config the loop as written stores is the one the selection rule names |
| FbConfig.SelectAsWrittenPicksSameConfig | sdlx11.cpp:38-51 | The loop as written stores the config the selection rule names |
| FbConfig.ScanAsWrittenVisual | sdlx11.cpp:38-51 | In the loop as written, the visual left behind belongs to the chosen config when one with alpha exists; otherwise it is the last candidate's lookup (NULL when that lookup failed), whichever config was chosen |
| FbConfig.AsWrittenFallbackLosesVisual | sdlx11.cpp:38-62 | With a usable candidate followed by one without a visual, the code as written keeps config 0 with a NULL visual, which `visual->screen` then dereferences; the corrected search keeps config 0's visual |
| FbConfig.AsWrittenFallbackMixesVisual | sdlx11.cpp:38-78 | With a usable candidate followed by one without a picture format, the code as written pairs config 0 with candidate 1's visual; the corrected search keeps them together |
| EventMask.BitsDistinct | sdlx11.cpp:64-68 | Distinct mask flags occupy distinct bits below 32 |
| EventMask.MaskHasFlag | sdlx11.cpp:64-68 | A flag is set in an or-ed mask iff it is listed, so listing the button masks twice changes nothing |
| EventMask.ReappliedIsCreationWithoutButtons | sdlx11.cpp:185-188 | A flag is in the re-applied mask iff it is in the creation mask and is neither ButtonPressMask nor ButtonReleaseMask |
| EventMask.ReappliedSetIsCreationSetWithoutButtons | sdlx11.cpp:185-188 | The re-applied flags are the creation flags minus the two button flags |
| Animation.FrameIndex | main.cpp:36 | `(ticks / SPEED) % 4` with C division lies strictly between -4 and 4, and within 0..3 for non-negative ticks |
| Animation.Row | main.cpp:35-59 | Exactly the five idle states have a sheet row, each a non-negative multiple of 32 |
| Animation.RowsDistinct | main.cpp:35-59 | Distinct idle states draw from distinct rows |
| Animation.NewCat | main.cpp:17-23 | A new cat is in state IDLE5 |
| Animation.Update | main.cpp:31-60 | `update` keeps the state and records the tick count; for an idle state the source rect is the frame's cell in the state's row and the destination is {0, 0, 32, 32}; for RUN_LEFT/RUN_RIGHT sprite and both rects stay unchanged; for non-negative ticks the source x is one of 0, 32, 64, 96 |
| Animation.CDivNonNegative | main.cpp:36 | For non-negative ticks, C's truncating `/` and `%` agree with Euclidean division |
| Animation.FrameConstantOnInterval | main.cpp:36 | Throughout [k·SPEED, (k+1)·SPEED) the frame index is k mod 4 |
| Animation.FramePeriodic | main.cpp:36 | The frame index repeats after 4·SPEED ticks |
| Animation.FrameAdvances | main.cpp:36 | After SPEED more ticks the frame index moves on by one, wrapping from 3 to 0 |
| Animation.UpdatesKeepState | main.cpp:31-60 | After any non-empty run of updates an idle cat keeps its state, draws the frame of the last tick count from its own row and has destination {0, 0, 32, 32} |
| Animation.AlwaysIdle5 | main.cpp:17-60 | The state set by the constructor is never changed, so after one or more updates every drawn frame comes from row 192 |
| Lifecycle.Construct | sdlx11.hpp:92-93 | A fresh object holds four NULL handles, and destroying it releases nothing |
| Lifecycle.Destroy | sdlx11.cpp:220-230 | `SDL_Destroy` releases the renderer, the window and the display each iff its handle is set, in that order and once each, then sets all four handles to NULL; a window release always uses a non-NULL display |
| Lifecycle.DestroyIdempotent | sdlx11.cpp:220-230 | A second `SDL_Destroy` releases nothing and changes nothing |
| Lifecycle.DestroyTimes | sdlx11.cpp:220-230 | After at least one `SDL_Destroy` call all handles are NULL, and a run of calls releases nothing the first call does not |
| Lifecycle.DestroyTimesReleasesOnce | sdlx11.cpp:220-230 | Any number (at least one) of `SDL_Destroy` calls in a row releases exactly what the first releases |
| Lifecycle.DestroyTimesFromNull | sdlx11.cpp:220-230 | On NULL handles, any number of `SDL_Destroy` calls releases nothing |
| Lifecycle.Create | sdlx11.cpp:197-217 | `SDL_Create` succeeds iff every step succeeds, and then holds the display, window, renderer and SDL window it was given; otherwise it exits at the first failing step, in the order SDL_Init, XOpenDisplay, FB config, GL context, glXMakeCurrent, SDL_CreateWindowFrom, SDL_CreateRenderer |
| Lifecycle.CreateThenTeardown | main.cpp:128-134 | After a successful startup, `quit()` and the destructor together release renderer, window and display exactly once each, in that order, and leave every handle NULL |
| App.DrainAll | main.cpp:113-121 | Polling until nothing is left returns SDL's queued events, then the translations of the native queue (none on a NULL display), then the pumped events, and leaves nothing pending |
| App.HandleEvents | main.cpp:113-121 | One iteration's inner loop returns the frame's native events translated (on an open display) followed by SDL's own |
| App.Iteration | main.cpp:111-121 | One pass of the loop body sees QUIT iff QUIT is among the surfaced events, keeps the cat's state and draws the frame of the current tick |
| App.RunLoop | main.cpp:109-126 | The loop ends with `done` iff some iteration surfaces QUIT, and stops right after the first such iteration; otherwise every iteration runs; the cat keeps its state and shows the frame of the last tick |
| App.RunCat | main.cpp:100-126 | `run` on a fresh cat ends with `done` iff some iteration surfaces QUIT; on a NULL display only SDL's own events count; the cat stays IDLE5 |
| App.SurfacedWithoutDisplay | sdlx11.cpp:235 | On a NULL display an iteration surfaces only SDL's own events |
| App.Session | main.cpp:86-142 | A run of `main` fails iff `SDL_Create` does, with the same error. Otherwise the cat is IDLE5 and QUIT is seen iff some iteration surfaces one (only SDL's own events count when the mode query failed and `quit()` ran early). Something has been released iff the loop has ended or the early `quit()` ran; then renderer, window and display are released exactly once, in that order, and every handle is NULL. While the loop is still running and no early `quit()` ran, nothing is released and the handles are those `SDL_Create` set |

## Left out

- Xlib, GLX, XRender and SDL calls as real effects are not modelled: colormap and GC creation, WM hints, mapping, buffer swaps, window bordering and positioning. Startup failures are inputs to `Lifecycle.Create`, and the colormap, window and GC calls that the code does not check cannot fail in the model.
- The `_NET_WM_WINDOW_OPACITY` value (sdlx11.cpp:129) is a `double` computation and is not modelled.
- The EWMH fullscreen message (sdlx11.cpp:138-168) is fire-and-forget and is not modelled.
- Atom values, `SDL_GetWindowID` and `SDL_GetTicks` are inputs: `XEvents.Env` and the tick count of each `App.Frame`.
- Textures, `IMG_Load`, `SDL_RenderCopy`, clearing and presenting are not modelled. The desktop-mode query in `init` is one boolean input to `App.Session`, and the window position it computes is not modelled.
- Walking, direction flips, dwell timers and random transitions are not modelled: no code for them exists in these files.
- Animation.FrameIndex: the `Uint32` to `int` conversion of `SDL_GetTicks` and its wrap-around after about 24.8 days are not modelled. Ticks are unbounded integers, and the lemmas assume non-negative ticks.
- `SDL_PushEvent` failure (a full SDL queue) is not modelled: every push succeeds.
- The fields the `Cat` constructor leaves uninitialised are `None` rather than indeterminate values.
- The `Cat` allocated in `run` is never deleted; its destructor is not modelled.
- App.DrainAll: nothing arrives while the inner loop runs. No native events arrive then (they arrive between iterations; `Poll.PollEvent` and the `Poll.Drain` lemmas handle arrivals during a drain), and SDL's own pump, which `::SDL_PollEvent` (sdlx11.cpp:296) runs on every call, brings events only on the first call of an iteration. So the model cannot express SDL events arriving during the inner loop, nor an inner loop kept going by them.
- The ESC-key test in the header's usage example is not part of the program and is not modelled.
- The default arguments of `SDL_Create` and `SDL_CreateWindowEx` (sdlx11.hpp:97-111) are not modelled: the program's only call (main.cpp:88) passes every argument explicitly.
- Lifecycle.Create: uses the corrected frame-buffer-config search `FbConfig.Select`. The code as written can dereference a NULL visual in the fallback case (see Findings); `Create` returns `Ok` there instead of modelling that crash.
- Poll.Drain: the server's deliveries are a finite sequence of batches, so every modelled drain ends. The loop at sdlx11.cpp:235 has no bound: while the server keeps delivering (for instance pointer motion, selected on the bridge's own window at sdlx11.cpp:66 and read and dropped by the loop), it keeps reading, and the model cannot express a drain that never returns.
- The SDL events the bridge pushes are only partly initialised in the source: a button event sets only the type, window id and button number, so its `state`, `clicks`, `which`, `x` and `y` are indeterminate; the close event's `data1` and `data2` are likewise unset. `XEvents.SdlEvent` carries only the fields the bridge sets.

## Findings

| source | as written | input that shows it | evidently intended | confidence | as-written member | corrected member |
|---|---|---|---|---|---|---|
| sdlx11.cpp:38-62 | In the fallback case (no candidate has alpha), `visual` still holds the lookup for the last candidate examined, not for the stored `fbconfig`. The window is then built from that visual, which may be NULL. | Two candidates, neither with alpha: the first has a visual and a picture format, the second has no visual. `fbconfig` is the first and `visual` is NULL, so `visual->screen` dereferences NULL. If the second candidate instead has a visual but no picture format, the window uses its visual with the first config. | Use the visual of the chosen config (keep it alongside `fbconfig`, or look it up again after the loop). | medium, not executed | FbConfig.AsWrittenFallbackLosesVisual | FbConfig.Select |
