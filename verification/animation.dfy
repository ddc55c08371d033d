/** The sprite of main.cpp: the `State` enum, the `Cat` constructor and
    `Cat::update`, which picks the animation frame from the tick count and
    the sprite-sheet row from the state. */
module Animation {
  import opened Wrappers

  /** `SPEED` (sdlx11.hpp): ticks, i.e. milliseconds, per animation frame. */
  const Speed: int := 100

  /** Frames per idle animation, and the side of one square sprite cell. */
  const FrameCount: int := 4
  const SpriteSize: int := 32

  datatype State = Idle | Idle2 | Idle3 | Idle4 | Idle5 | RunLeft | RunRight {
    predicate IsIdle() {
      !RunLeft? && !RunRight?
    }
  }

  /** `SDL_Rect`. */
  datatype Rect = Rect(x: int, y: int, w: int, h: int)

  /** C's `/` on `int`, which truncates toward zero. */
  function CDiv(a: int, b: int): int
    requires b > 0
  {
    if a >= 0 then a / b else -((-a) / b)
  }

  /** C's `%` on `int`: the remainder takes the sign of the dividend. */
  function CRem(a: int, b: int): int
    requires b > 0
  {
    a - CDiv(a, b) * b
  }

  /** `(ticks / SPEED) % 4`. */
  function FrameIndex(ticks: int): (r: int)
    ensures -FrameCount < r < FrameCount
    ensures ticks >= 0 ==> 0 <= r < FrameCount
  {
    CRem(CDiv(ticks, Speed), FrameCount)
  }

  /** The sheet row of each state that `update` handles, as a table. */
  function Row(s: State): (r: Option<int>)
    ensures r.Some? <==> s.IsIdle()
    ensures r.Some? ==> 0 <= r.value && r.value % SpriteSize == 0
  {
    match s
    case Idle => Some(0)
    case Idle2 => Some(32)
    case Idle3 => Some(64)
    case Idle4 => Some(96)
    case Idle5 => Some(192)
    case RunLeft => None
    case RunRight => None
  }

  /** Distinct idle states draw from distinct rows. */
  lemma RowsDistinct(a: State, b: State)
    requires a.IsIdle() && b.IsIdle() && a != b
    ensures Row(a) != Row(b)
  {
  }

  /** A `Cat`'s fields. `sprite`, `ticks`, `srcrect` and `dstrect` are left
      uninitialised by the constructor; None stands for that. */
  datatype Cat = Cat(state: State, ticks: Option<int>, sprite: Option<int>,
                     srcrect: Option<Rect>, dstrect: Option<Rect>)

  /** The constructor, minus the texture loading. */
  function NewCat(): (c: Cat)
    ensures c.state == Idle5
  {
    Cat(Idle5, None, None, None, None)
  }

  /** `Cat::update` with `now` the value of `SDL_GetTicks()`; the branches
      are those of the source's if-chain. */
  function Update(c: Cat, now: int): (r: Cat)
    ensures r.state == c.state && r.ticks == Some(now)
    ensures c.state.IsIdle() ==>
              && r.sprite == Some(FrameIndex(now))
              && r.srcrect == Some(Rect(FrameIndex(now) * SpriteSize, Row(c.state).value, SpriteSize, SpriteSize))
              && r.dstrect == Some(Rect(0, 0, SpriteSize, SpriteSize))
    ensures !c.state.IsIdle() ==>
              r.sprite == c.sprite && r.srcrect == c.srcrect && r.dstrect == c.dstrect
    ensures c.state.IsIdle() && now >= 0 ==>
              0 <= r.srcrect.value.x <= (FrameCount - 1) * SpriteSize && r.srcrect.value.x % SpriteSize == 0
  {
    var c := c.(ticks := Some(now));
    var sprite := FrameIndex(now);
    match c.state
    case Idle => c.(sprite := Some(sprite), srcrect := Some(Rect(sprite * 32, 0, 32, 32)), dstrect := Some(Rect(0, 0, 32, 32)))
    case Idle2 => c.(sprite := Some(sprite), srcrect := Some(Rect(sprite * 32, 32, 32, 32)), dstrect := Some(Rect(0, 0, 32, 32)))
    case Idle3 => c.(sprite := Some(sprite), srcrect := Some(Rect(sprite * 32, 64, 32, 32)), dstrect := Some(Rect(0, 0, 32, 32)))
    case Idle4 => c.(sprite := Some(sprite), srcrect := Some(Rect(sprite * 32, 96, 32, 32)), dstrect := Some(Rect(0, 0, 32, 32)))
    case Idle5 => c.(sprite := Some(sprite), srcrect := Some(Rect(sprite * 32, 192, 32, 32)), dstrect := Some(Rect(0, 0, 32, 32)))
    case RunLeft => c
    case RunRight => c
  }

  /** For non-negative ticks, C's division is Dafny's. */
  lemma CDivNonNegative(a: int, b: int)
    requires a >= 0 && b > 0
    ensures CDiv(a, b) == a / b && CRem(a, b) == a % b
  {
  }

  /** The frame index is `k mod 4` throughout the k-th period of `SPEED`
      ticks, so it stays put for `SPEED` ticks at a time. */
  lemma {:induction false} FrameConstantOnInterval(k: nat, t: int)
    requires k * Speed <= t < (k + 1) * Speed
    ensures FrameIndex(t) == k % FrameCount
  {
    CDivNonNegative(t, Speed);
    var q := t / Speed;
    assert q * Speed <= t < q * Speed + Speed;
    assert q == k;
    CDivNonNegative(q, FrameCount);
  }

  /** The frame index repeats every `4 * SPEED` ticks. */
  lemma {:induction false} FramePeriodic(t: int)
    requires t >= 0
    ensures FrameIndex(t + FrameCount * Speed) == FrameIndex(t)
  {
    var k := t / Speed;
    assert k * Speed <= t < (k + 1) * Speed;
    FrameConstantOnInterval(k, t);
    assert (k + FrameCount) * Speed <= t + FrameCount * Speed < (k + FrameCount + 1) * Speed;
    FrameConstantOnInterval(k + FrameCount, t + FrameCount * Speed);
    assert (k + FrameCount) % FrameCount == k % FrameCount;
  }

  /** Every `SPEED` ticks the animation moves on by one frame, wrapping
      from the last frame to the first. */
  lemma {:induction false} FrameAdvances(t: int)
    requires t >= 0
    ensures FrameIndex(t + Speed) == (FrameIndex(t) + 1) % FrameCount
  {
    var k := t / Speed;
    assert k * Speed <= t < (k + 1) * Speed;
    FrameConstantOnInterval(k, t);
    FrameConstantOnInterval(k + 1, t + Speed);
  }

  /** The cat after `update` has run at each of the given tick counts. */
  function UpdateAll(c: Cat, ticks: seq<int>): Cat
    decreases |ticks|
  {
    if |ticks| == 0 then c else UpdateAll(Update(c, ticks[0]), ticks[1..])
  }

  /** No code path changes the state the constructor sets, so once `update`
      has run at least once every frame is drawn from row 192 (IDLE5), at
      the frame the last tick count selects. */
  lemma {:induction false} AlwaysIdle5(ticks: seq<int>)
    requires |ticks| > 0
    ensures var c := UpdateAll(NewCat(), ticks);
            && c.state == Idle5
            && c.srcrect == Some(Rect(FrameIndex(ticks[|ticks| - 1]) * SpriteSize, 192, SpriteSize, SpriteSize))
            && c.dstrect == Some(Rect(0, 0, SpriteSize, SpriteSize))
  {
    UpdatesKeepState(NewCat(), ticks);
  }

  lemma {:induction false} UpdatesKeepState(c: Cat, ticks: seq<int>)
    requires |ticks| > 0 && c.state.IsIdle()
    ensures var r := UpdateAll(c, ticks);
            && r.state == c.state
            && r.srcrect == Some(Rect(FrameIndex(ticks[|ticks| - 1]) * SpriteSize, Row(c.state).value, SpriteSize, SpriteSize))
            && r.dstrect == Some(Rect(0, 0, SpriteSize, SpriteSize))
    decreases |ticks|
  {
    if |ticks| > 1 {
      UpdatesKeepState(Update(c, ticks[0]), ticks[1..]);
      assert ticks[1..][|ticks[1..]| - 1] == ticks[|ticks| - 1];
    }
  }
}
