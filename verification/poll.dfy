/** The bridge's `SDL_PollEvent` (sdlx11.cpp:232-297): drain the native
    queue while the display is open and events are pending, pushing the
    translated events into SDL's queue, then hand off to one generic poll. */
module Poll {
  import opened Wrappers
  import opened XEvents

  /** The client side of the X connection. `queued` is Xlib's event queue;
      `arriving` holds what the server delivers later, in the batches in
      which it reaches the socket. */
  datatype Connection = Connection(queued: seq<XEvent>, arriving: seq<seq<XEvent>>)

  /** The bridge's view of the world: the display handle (0 is NULL), the
      native connection behind it and SDL's own event queue. */
  datatype Bridge = Bridge(display: nat, conn: Connection, generic: seq<SdlEvent>)

  function Flatten(ss: seq<seq<XEvent>>): seq<XEvent> {
    if |ss| == 0 then [] else ss[0] + Flatten(ss[1..])
  }

  /** Every event the connection holds or will deliver, in delivery order. */
  function Backlog(c: Connection): seq<XEvent> {
    c.queued + Flatten(c.arriving)
  }

  /** `XPending`: while events are queued it reports their count without
      touching the socket; only on an empty queue does it read what has
      reached the socket, the next batch, which may be empty. The pending
      count is then `|queued|`. */
  function Pending(c: Connection): (c': Connection)
    ensures Backlog(c') == Backlog(c)
  {
    if |c.queued| > 0 || |c.arriving| == 0 then c
    else
      assert Flatten(c.arriving) == c.arriving[0] + Flatten(c.arriving[1..]);
      Connection(c.queued + c.arriving[0], c.arriving[1..])
  }

  /** `XPending` only ever adds to the queue, reads nothing while events
      are queued, and otherwise consumes exactly the next batch. */
  lemma PendingReadsOnlyWhenQueueEmpty(c: Connection)
    ensures var c' := Pending(c);
            && c.queued <= c'.queued
            && |c'.arriving| <= |c.arriving|
            && c'.arriving == c.arriving[|c.arriving| - |c'.arriving|..]
            && (c.queued != [] ==> c' == c)
            && (c.queued == [] && |c.arriving| > 0 ==>
                  c'.queued == c.arriving[0] && c'.arriving == c.arriving[1..])
  {
  }

  datatype DrainResult = DrainResult(conn: Connection, generic: seq<SdlEvent>, read: seq<XEvent>)

  /** The drain loop. Each round re-runs `XPending` and, while it reports
      events, takes one with `XNextEvent` and pushes its translation. */
  function Drain(c: Connection, generic: seq<SdlEvent>, env: Env): (r: DrainResult)
    ensures r.conn.queued == []
    decreases |Backlog(c)|
  {
    var c1 := Pending(c);
    if |c1.queued| == 0 then
      DrainResult(c1, generic, [])
    else
      var e := c1.queued[0];
      var rest := Drain(Connection(c1.queued[1..], c1.arriving), generic + Translate(e, env), env);
      DrainResult(rest.conn, rest.generic, [e] + rest.read)
  }

  /** The arrival batches left after a drain are a suffix of those at entry. */
  lemma {:induction false} DrainLeavesSuffix(c: Connection, generic: seq<SdlEvent>, env: Env)
    ensures var r := Drain(c, generic, env);
            && |r.conn.arriving| <= |c.arriving|
            && r.conn.arriving == c.arriving[|c.arriving| - |r.conn.arriving|..]
    decreases |Backlog(c)|
  {
    var c1 := Pending(c);
    assert c1.arriving == c.arriving[|c.arriving| - |c1.arriving|..] by {
      PendingReadsOnlyWhenQueueEmpty(c);
    }
    if |c1.queued| == 0 {
      assert Drain(c, generic, env).conn == c1;
    } else {
      var c2 := Connection(c1.queued[1..], c1.arriving);
      var g2 := generic + Translate(c1.queued[0], env);
      var rest := Drain(c2, g2, env);
      assert Drain(c, generic, env).conn == rest.conn;
      assert rest.conn.arriving == c1.arriving[|c1.arriving| - |rest.conn.arriving|..] by {
        DrainLeavesSuffix(c2, g2, env);
      }
    }
  }

  /** The drain stops with nothing pending, and the events it read
      followed by those still to come are exactly the backlog it started
      with: nothing is lost, duplicated or reordered. */
  lemma {:induction false} DrainConserves(c: Connection, generic: seq<SdlEvent>, env: Env)
    ensures var r := Drain(c, generic, env);
            && r.conn.queued == []
            && r.read + Backlog(r.conn) == Backlog(c)
    decreases |Backlog(c)|
  {
    var c1 := Pending(c);
    if |c1.queued| == 0 {
      assert Drain(c, generic, env) == DrainResult(c1, generic, []);
      assert [] + Backlog(c1) == Backlog(c);
    } else {
      var e := c1.queued[0];
      var c2 := Connection(c1.queued[1..], c1.arriving);
      var g2 := generic + Translate(e, env);
      var rest := Drain(c2, g2, env);
      assert Drain(c, generic, env) == DrainResult(rest.conn, rest.generic, [e] + rest.read);
      assert rest.conn.queued == [] && rest.read + Backlog(rest.conn) == Backlog(c2) by {
        DrainConserves(c2, g2, env);
      }
      BacklogAfterTake(c, c1, c2);
      assert ([e] + rest.read) + Backlog(rest.conn) == [e] + (rest.read + Backlog(rest.conn));
    }
  }

  /** Taking the head of the queue that `XPending` left splits the backlog
      into that event and the rest. */
  lemma BacklogAfterTake(c: Connection, c1: Connection, c2: Connection)
    requires c1 == Pending(c) && |c1.queued| > 0
    requires c2 == Connection(c1.queued[1..], c1.arriving)
    ensures Backlog(c) == [c1.queued[0]] + Backlog(c2)
  {
    assert [c1.queued[0]] + c1.queued[1..] == c1.queued;
  }

  /** Everything already queued when the drain starts is read by it. */
  lemma {:induction false} DrainReadsQueue(c: Connection, generic: seq<SdlEvent>, env: Env)
    ensures c.queued <= Drain(c, generic, env).read
    decreases |Backlog(c)|
  {
    var c1 := Pending(c);
    assert c.queued <= c1.queued by {
      PendingReadsOnlyWhenQueueEmpty(c);
    }
    if |c1.queued| > 0 {
      var e := c1.queued[0];
      var c2 := Connection(c1.queued[1..], c1.arriving);
      var g2 := generic + Translate(e, env);
      var rest := Drain(c2, g2, env);
      assert Drain(c, generic, env).read == [e] + rest.read;
      assert c2.queued <= rest.read by {
        DrainReadsQueue(c2, g2, env);
      }
      assert c1.queued == [e] + c2.queued;
      PrefixOfCons(c.queued, e, c2.queued, rest.read);
    }
  }

  /** A prefix of `[e] + a` is a prefix of `[e] + b` when `a` is a prefix of `b`. */
  lemma PrefixOfCons(p: seq<XEvent>, e: XEvent, a: seq<XEvent>, b: seq<XEvent>)
    requires p <= [e] + a && a <= b
    ensures p <= [e] + b
  {
    assert [e] + a == ([e] + b)[..|a| + 1];
  }

  /** The drain pushes the translation of each event it reads, in reading
      order, behind what SDL's queue already held. */
  lemma {:induction false} DrainPushesInOrder(c: Connection, generic: seq<SdlEvent>, env: Env)
    ensures var r := Drain(c, generic, env);
            r.generic == generic + TranslateAll(r.read, env)
    decreases |Backlog(c)|
  {
    var c1 := Pending(c);
    if |c1.queued| == 0 {
      assert TranslateAll([], env) == [];
    } else {
      var e := c1.queued[0];
      var c2 := Connection(c1.queued[1..], c1.arriving);
      var g2 := generic + Translate(e, env);
      var rest := Drain(c2, g2, env);
      var read := [e] + rest.read;
      assert Drain(c, generic, env) == DrainResult(rest.conn, rest.generic, read);
      DrainPushesInOrder(c2, g2, env);
      TranslateAllCons(e, rest.read, env);
    }
  }

  lemma TranslateAllCons(e: XEvent, xs: seq<XEvent>, env: Env)
    ensures TranslateAll([e] + xs, env) == Translate(e, env) + TranslateAll(xs, env)
  {
    assert ([e] + xs)[1..] == xs;
  }

  /** The loop re-checks `XPending` on every round rather than sampling the
      count once: as long as every batch the server delivers is non-empty,
      it keeps reading until no batch is left. */
  lemma {:induction false} DrainReadsEveryNonEmptyBatch(c: Connection, generic: seq<SdlEvent>, env: Env)
    requires forall k :: 0 <= k < |c.arriving| ==> |c.arriving[k]| > 0
    ensures Drain(c, generic, env).conn.arriving == []
    decreases |Backlog(c)|
  {
    var c1 := Pending(c);
    PendingReadsOnlyWhenQueueEmpty(c);
    if |c1.queued| > 0 {
      var c2 := Connection(c1.queued[1..], c1.arriving);
      forall k | 0 <= k < |c2.arriving|
        ensures |c2.arriving[k]| > 0
      {
        assert c2.arriving[k] == c.arriving[|c.arriving| - |c1.arriving| + k];
      }
      DrainReadsEveryNonEmptyBatch(c2, generic + Translate(c1.queued[0], env), env);
    }
  }

  /** A pending check on an empty queue that finds nothing on the socket
      ends the drain, even if more is delivered later. */
  lemma EmptyBatchEndsDrain(rest: seq<seq<XEvent>>, generic: seq<SdlEvent>, env: Env)
    ensures Drain(Connection([], [[]] + rest), generic, env)
            == DrainResult(Connection([], rest), generic, [])
  {
    assert ([[]] + rest)[1..] == rest;
  }

  /** SDL's own poll: it first pumps SDL's own connection (`pumped`), then
      takes the oldest queued event, if any. */
  function GenericPoll(generic: seq<SdlEvent>, pumped: seq<SdlEvent>): (r: (Option<SdlEvent>, seq<SdlEvent>))
    ensures r.0.None? <==> generic + pumped == []
    ensures r.0.Some? ==> [r.0.value] + r.1 == generic + pumped
  {
    var q := generic + pumped;
    if |q| == 0 then (None, []) else (Some(q[0]), q[1..])
  }

  datatype PollResult = PollResult(event: Option<SdlEvent>, bridge: Bridge, read: seq<XEvent>)

  /** One call of the bridge's `SDL_PollEvent`. */
  function PollEvent(b: Bridge, env: Env, pumped: seq<SdlEvent>): (r: PollResult)
    ensures r.bridge.display == b.display
    ensures b.display == 0 ==> r.read == [] && r.bridge.conn == b.conn
    ensures b.display != 0 ==> r.bridge.conn.queued == [] && b.conn.queued <= r.read
    ensures r.read + Backlog(r.bridge.conn) == Backlog(b.conn)
    ensures |r.bridge.conn.arriving| <= |b.conn.arriving|
    ensures var all := b.generic + TranslateAll(r.read, env) + pumped;
            && (r.event.None? <==> all == [])
            && (r.event.None? ==> r.bridge.generic == [])
            && (r.event.Some? ==> [r.event.value] + r.bridge.generic == all)
  {
    if b.display == 0 then
      assert TranslateAll([], env) == [];
      var (ev, rest) := GenericPoll(b.generic, pumped);
      PollResult(ev, b.(generic := rest), [])
    else
      DrainConserves(b.conn, b.generic, env);
      DrainReadsQueue(b.conn, b.generic, env);
      DrainPushesInOrder(b.conn, b.generic, env);
      DrainLeavesSuffix(b.conn, b.generic, env);
      var d := Drain(b.conn, b.generic, env);
      var (ev, rest) := GenericPoll(d.generic, pumped);
      PollResult(ev, Bridge(b.display, d.conn, rest), d.read)
  }

  /** When nothing more is due from the server, a poll on an open display
      reads exactly the queue, leaves nothing behind, and returns the head
      of SDL's queue, the translated events and the pumped ones. */
  lemma PollReadsWholeQueue(b: Bridge, env: Env, pumped: seq<SdlEvent>)
    requires b.display != 0 && b.conn.arriving == []
    ensures var r := PollEvent(b, env, pumped);
            var all := b.generic + TranslateAll(b.conn.queued, env) + pumped;
            && r.read == b.conn.queued
            && r.bridge.conn == Connection([], [])
            && (all == [] ==> r.event == None && r.bridge.generic == [])
            && (all != [] ==> r.event == Some(all[0]) && r.bridge.generic == all[1..])
  {
    var r := PollEvent(b, env, pumped);
    var q := b.conn.queued;
    assert Backlog(b.conn) == q;
    assert |r.read| + |Backlog(r.bridge.conn)| == |q|;
    assert q <= r.read;
    assert |r.read| == |q|;
    assert r.read == q;
    var all := b.generic + TranslateAll(q, env) + pumped;
    if all != [] {
      assert [r.event.value] + r.bridge.generic == all;
      assert all[1..] == ([r.event.value] + r.bridge.generic)[1..];
    }
  }

  /** On a NULL display a poll reads nothing and is just SDL's own poll. */
  lemma PollWithoutDisplay(b: Bridge, env: Env, pumped: seq<SdlEvent>)
    requires b.display == 0
    ensures var r := PollEvent(b, env, pumped);
            var all := b.generic + pumped;
            && r.read == [] && r.bridge.conn == b.conn
            && (all == [] ==> r.event == None && r.bridge.generic == [])
            && (all != [] ==> r.event == Some(all[0]) && r.bridge.generic == all[1..])
  {
    var r := PollEvent(b, env, pumped);
    assert TranslateAll([], env) == [];
    var all := b.generic + pumped;
    assert b.generic + TranslateAll(r.read, env) + pumped == all;
    if all != [] {
      assert [r.event.value] + r.bridge.generic == all;
      assert all[1..] == ([r.event.value] + r.bridge.generic)[1..];
    }
  }

  lemma TranslateOne(e: XEvent, env: Env)
    ensures TranslateAll([e], env) == Translate(e, env)
  {
    assert [e][1..] == [];
  }

  /** ICCCM close scenario: with one WM_DELETE_WINDOW message pending and
      nothing else queued or due, the first poll yields the window-close
      event and leaves exactly one SDL_QUIT behind, which the next poll
      returns; a third poll finds nothing. */
  lemma CloseRequestYieldsCloseThenQuit(b: Bridge, env: Env)
    requires b.display != 0
    requires b.conn.queued == [ClientMessage(env.wmProtocols, env.wmDeleteWindow)]
    requires b.conn.arriving == [] && b.generic == []
    ensures var p1 := PollEvent(b, env, []);
            var p2 := PollEvent(p1.bridge, env, []);
            var p3 := PollEvent(p2.bridge, env, []);
            && p1.event == Some(WindowClose(env.windowId))
            && p2.event == Some(Quit)
            && p3.event == None
  {
    var msg := ClientMessage(env.wmProtocols, env.wmDeleteWindow);
    TranslateOne(msg, env);
    assert TranslateAll(b.conn.queued, env) == [WindowClose(env.windowId), Quit];
    assert [WindowClose(env.windowId), Quit][1..] == [Quit];
    assert TranslateAll([], env) == [];
    PollReadsWholeQueue(b, env, []);
    var p1 := PollEvent(b, env, []);
    PollReadsWholeQueue(p1.bridge, env, []);
    var p2 := PollEvent(p1.bridge, env, []);
    PollReadsWholeQueue(p2.bridge, env, []);
  }
}
