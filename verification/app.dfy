/** `MySDLx11App` and `main` (main.cpp:84-142): start up, place the
    window, run the update/poll loop until an SDL_QUIT has been polled, then
    tear down through `quit()` and the destructor. Rendering calls are
    left out. */
module App {
  import opened Wrappers
  import opened XEvents
  import opened Poll
  import opened Animation
  import opened Lifecycle

  /** What reaches the program during one iteration of the main loop: the
      tick count `SDL_GetTicks` returns, the native events the X server
      queues, and the events SDL's own pump collects. */
  datatype Frame = Frame(now: int, xEvents: seq<XEvent>, sdlEvents: seq<SdlEvent>)

  /** The events one iteration's inner loop surfaces, in order: the
      translated native events (none on a closed display, which delivers
      nothing) followed by SDL's own. */
  function Surfaced(display: nat, f: Frame, env: Env): seq<SdlEvent> {
    (if display != 0 then TranslateAll(f.xEvents, env) else []) + f.sdlEvents
  }

  /** No native events are left queued or due: the state between two
      iterations of the main loop. */
  predicate Settled(b: Bridge) {
    b.generic == [] && b.conn.arriving == [] && (b.display != 0 ==> b.conn.queued == [])
  }

  function PendingEvents(b: Bridge, env: Env, pumped: seq<SdlEvent>): nat {
    |b.generic| + |pumped| + (if b.display != 0 then |TranslateAll(b.conn.queued, env)| else 0)
  }

  /** One poll with nothing due from the server, whether the display is
      open or NULL. */
  lemma PollOnce(b: Bridge, env: Env, pumped: seq<SdlEvent>)
    requires b.conn.arriving == []
    ensures var r := PollEvent(b, env, pumped);
            var all := b.generic + (if b.display != 0 then TranslateAll(b.conn.queued, env) else []) + pumped;
            && r.bridge.display == b.display
            && r.bridge.conn.arriving == []
            && (b.display != 0 ==> r.bridge.conn.queued == [])
            && (b.display == 0 ==> r.bridge.conn == b.conn)
            && (all == [] ==> r.event == None && r.bridge.generic == [])
            && (all != [] ==> r.event == Some(all[0]) && r.bridge.generic == all[1..])
  {
    if b.display != 0 {
      PollReadsWholeQueue(b, env, pumped);
    } else {
      PollWithoutDisplay(b, env, pumped);
    }
  }

  /** `while (SDL_PollEvent(&event) != NULL)`: poll until nothing is left,
      collecting what each call returns. SDL pumps `pumped` on the first
      call; nothing new arrives during the inner loop. */
  function DrainAll(b: Bridge, env: Env, pumped: seq<SdlEvent>): (r: (seq<SdlEvent>, Bridge))
    requires b.conn.arriving == []
    ensures r.0 == b.generic + (if b.display != 0 then TranslateAll(b.conn.queued, env) else []) + pumped
    ensures Settled(r.1) && r.1.display == b.display
    ensures b.display == 0 ==> r.1.conn == b.conn
    decreases PendingEvents(b, env, pumped)
  {
    var p := PollEvent(b, env, pumped);
    PollOnce(b, env, pumped);
    assert TranslateAll([], env) == [];
    match p.event
    case None => ([], p.bridge)
    case Some(ev) =>
      var rest := DrainAll(p.bridge, env, []);
      ([ev] + rest.0, rest.1)
  }

  /** One iteration's event handling: the frame's native events reach the
      queue of an open display, then the inner loop polls until empty. */
  function HandleEvents(b: Bridge, env: Env, f: Frame): (r: (seq<SdlEvent>, Bridge))
    requires Settled(b)
    ensures r.0 == Surfaced(b.display, f, env)
    ensures Settled(r.1) && r.1.display == b.display
  {
    if b.display != 0 then
      var r := DrainAll(Bridge(b.display, Connection(f.xEvents, []), []), env, f.sdlEvents);
      assert [] + TranslateAll(f.xEvents, env) + f.sdlEvents == Surfaced(b.display, f, env);
      r
    else
      var r := DrainAll(b, env, f.sdlEvents);
      assert b.generic + [] + f.sdlEvents == Surfaced(b.display, f, env);
      r
  }

  /** One pass of the main loop's body: `update`, then the inner poll
      loop; `quit` tells whether SDL_QUIT was among the polled events. */
  method Iteration(b: Bridge, env: Env, cat: Cat, f: Frame) returns (quit: bool, b': Bridge, cat': Cat)
    requires Settled(b)
    ensures quit <==> Quit in Surfaced(b.display, f, env)
    ensures Settled(b') && b'.display == b.display
    ensures cat'.state == cat.state
    ensures cat.state.IsIdle() ==>
              cat'.srcrect == Some(Rect(FrameIndex(f.now) * SpriteSize, Row(cat.state).value, SpriteSize, SpriteSize))
  {
    cat' := Update(cat, f.now);
    var (polled, after) := HandleEvents(b, env, f);
    quit := Quit in polled;
    b' := after;
  }

  /** The main loop of `MySDLx11App::run` over the iterations `frames`:
      update the cat, drain the events, stop after the first iteration in
      which SDL_QUIT was polled. If no frame brings one, the loop is still
      running when the frames run out. */
  method RunLoop(b: Bridge, env: Env, cat: Cat, frames: seq<Frame>)
    returns (iterations: nat, done: bool, b': Bridge, cat': Cat)
    requires Settled(b)
    ensures iterations <= |frames|
    ensures done <==> exists k :: 0 <= k < |frames| && Quit in Surfaced(b.display, frames[k], env)
    ensures done ==> iterations > 0 && Quit in Surfaced(b.display, frames[iterations - 1], env)
    ensures forall k :: 0 <= k < iterations - 1 ==> Quit !in Surfaced(b.display, frames[k], env)
    ensures !done ==> iterations == |frames|
    ensures Settled(b') && b'.display == b.display
    ensures cat'.state == cat.state
    ensures iterations > 0 && cat.state.IsIdle() ==>
              cat'.srcrect == Some(Rect(FrameIndex(frames[iterations - 1].now) * SpriteSize,
                                        Row(cat.state).value, SpriteSize, SpriteSize))
  {
    iterations, done, b', cat' := 0, false, b, cat;
    while !done && iterations < |frames|
      invariant iterations <= |frames|
      invariant done ==> iterations > 0 && Quit in Surfaced(b.display, frames[iterations - 1], env)
      invariant forall k :: 0 <= k < iterations - 1 ==> Quit !in Surfaced(b.display, frames[k], env)
      invariant !done ==> forall k :: 0 <= k < iterations ==> Quit !in Surfaced(b.display, frames[k], env)
      invariant Settled(b') && b'.display == b.display
      invariant cat'.state == cat.state
      invariant iterations > 0 && cat.state.IsIdle() ==>
                  cat'.srcrect == Some(Rect(FrameIndex(frames[iterations - 1].now) * SpriteSize,
                                            Row(cat.state).value, SpriteSize, SpriteSize))
      decreases |frames| - iterations
    {
      done, b', cat' := Iteration(b', env, cat', frames[iterations]);
      iterations := iterations + 1;
    }
  }

  /** Where a run of the program stands after the given frames when
      startup succeeded: finished if a QUIT was polled, otherwise still
      looping. `released` lists what `SDL_Destroy` has released so far. */
  datatype Outcome = Outcome(iterations: nat, quitSeen: bool, cat: Cat, handles: Handles, released: seq<Release>)

  /** `main`: construct the app, `init` (`SDL_Create`, then the desktop
      mode query, whose failure calls `quit()` and carries on with NULL
      handles), create the cat and run the loop over `frames`. Only once
      the loop has polled a QUIT do `quit()` and then the destructor's
      `SDL_Destroy` run; while it has not, the program is still looping
      and the handles stay as they are. A failed startup step is
      `exit(1)`. */
  method Session(p: Platform, displayModeOk: bool, env: Env, frames: seq<Frame>)
    returns (r: Result<Outcome, Fatal>)
    requires p.xwindow != 0
    ensures r.Err? <==> Create(p).Err?
    ensures r.Err? ==> r.error == Create(p).error
    ensures r.Ok? ==> r.value.cat.state == Idle5
    ensures r.Ok? ==> (r.value.released != [] <==> r.value.quitSeen || !displayModeOk)
    ensures r.Ok? && r.value.released != [] ==>
              && r.value.released == [DestroyRenderer(p.renderer), DestroyWindow(p.display, p.xwindow), CloseDisplay(p.display)]
              && AllNull(r.value.handles)
    ensures r.Ok? && r.value.released == [] ==> r.value.handles == Create(p).value
    ensures r.Ok? && displayModeOk ==>
              (r.value.quitSeen <==> exists k :: 0 <= k < |frames| && Quit in Surfaced(p.display, frames[k], env))
    ensures r.Ok? && !displayModeOk ==>
              (r.value.quitSeen <==> exists k :: 0 <= k < |frames| && Quit in frames[k].sdlEvents)
  {
    var h := Construct();
    var created := Create(p);
    if created.Err? {
      return Err(created.error);
    }
    h := created.value;
    // init's quit() when the desktop mode query fails leaves every handle
    // NULL for the loop.
    var loopDisplay := if displayModeOk then h.display else Destroy(h).handles.display;
    var iterations, done, cat := RunCat(loopDisplay, env, frames);
    // Calls of SDL_Destroy so far: init's quit(), then, once the loop has
    // ended, run's quit() and the destructor.
    var destroyCalls := (if displayModeOk then 0 else 1) + (if done then 2 else 0);
    var t := DestroyTimes(h, destroyCalls);
    if destroyCalls >= 1 {
      CreateThenTeardown(p, destroyCalls);
    }
    return Ok(Outcome(iterations, done, cat, t.handles, t.released));
  }

  /** `run` on a fresh cat and an empty bridge over `display`. */
  method RunCat(display: nat, env: Env, frames: seq<Frame>) returns (iterations: nat, done: bool, cat: Cat)
    ensures done <==> exists k :: 0 <= k < |frames| && Quit in Surfaced(display, frames[k], env)
    ensures display == 0 ==> (done <==> exists k :: 0 <= k < |frames| && Quit in frames[k].sdlEvents)
    ensures cat.state == Idle5
  {
    var b;
    iterations, done, b, cat := RunLoop(Bridge(display, Connection([], []), []), env, NewCat(), frames);
    if display == 0 {
      SurfacedWithoutDisplay(frames, env);
    }
  }

  /** On a closed display only SDL's own events surface. */
  lemma SurfacedWithoutDisplay(frames: seq<Frame>, env: Env)
    ensures forall k :: 0 <= k < |frames| ==> Surfaced(0, frames[k], env) == frames[k].sdlEvents
  {
    forall k | 0 <= k < |frames|
      ensures Surfaced(0, frames[k], env) == frames[k].sdlEvents
    {
      assert [] + frames[k].sdlEvents == frames[k].sdlEvents;
    }
  }
}
