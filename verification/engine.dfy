/**
 The ripple engine as an event-driven state machine.

 The page's timers and frame callbacks are abstracted into events: the spawn
 timer firing, an animation frame firing, a visibility change and a pointer
 press. The state records the ripple list, the `running` flag, whether a
 spawn timer is pending, and how many frame callbacks are pending.
 */
module Engine {
  import opened Options
  import opened Ripples
  import opened Spawner
  import opened Frame

  /** `spawnArmed`: a `randomSpawn` timeout is pending.
      `pendingFrames`: how many `draw` callbacks are requested and not yet run. */
  datatype Field = Field(ripples: seq<Ripple>, running: bool, spawnArmed: bool, pendingFrames: nat)

  /** What page load leaves: whether the body switched to the black-water
      theme, and the engine if one was started. */
  datatype Boot = Boot(waterBlack: bool, field: Option<Field>)

  /** The field right after `startRipples`: empty list, running, the first
      spawn timeout (`firstDelay`) armed and one frame requested. */
  const Fresh := Field([], true, true, 1)

  /** Page load: with reduced motion nothing happens at all; otherwise the
      theme switches, and the engine starts only if the canvas exists and
      is `drawable`: its 2D context and `ResizeObserver` are available.
      Without them `startRipples` throws in its first lines, before any
      timer, frame or listener is set up. */
  function Start(reducedMotion: bool, canvasPresent: bool, drawable: bool): (b: Boot)
    ensures b.waterBlack <==> !reducedMotion
    ensures b.field.Some? <==> !reducedMotion && canvasPresent && drawable
    ensures b.field.Some? ==> b.field.value.ripples == [] && b.field.value.running
  {
    if reducedMotion then Boot(false, None)
    else if !canvasPresent || !drawable then Boot(true, None)
    else Boot(true, Some(Fresh))
  }

  datatype Event =
    | SpawnTimer(rect: Rect, uExtra: real, drops: seq<DropDraw>, uNext: real)
    | AnimationFrame(now: real)
    | VisibilityChange(hidden: bool)
    | PointerDown(clientX: real, clientY: real, rect: Rect, now: real, draws: Draws)

  /** The environment supplied a draw for every drop the tick emits. */
  predicate Supplied(c: Config, e: Event)
  {
    e.SpawnTimer? ==> |e.drops| >= Drops(c, e.uExtra)
  }

  /** Every random draw in the event lies in `[0, 1)`. */
  predicate UnitEvent(e: Event)
  {
    match e
    case SpawnTimer(_, u, dds, un) =>
      Unit(u) && Unit(un) && forall i :: 0 <= i < |dds| ==> UnitDrop(dds[i])
    case PointerDown(_, _, _, _, d) => UnitDraws(d)
    case _ => true
  }

  /** Apply one event. A spawn timer with none armed, or a frame with none
      requested, cannot fire, so those events change nothing. */
  function Step(c: Config, s: Field, e: Event): (s': Field)
    requires Supplied(c, e)
    ensures s'.spawnArmed ==> s.spawnArmed
    ensures s'.running == if e.VisibilityChange? then !e.hidden else s.running
    ensures s'.pendingFrames > s.pendingFrames ==> e == VisibilityChange(false)
    ensures e.AnimationFrame? || e.VisibilityChange? ==> s'.ripples == s.ripples
  {
    match e
    case SpawnTimer(rect, u, dds, un) =>
      if !s.spawnArmed then s
      else
        var t := SpawnTick(c, s.ripples, rect, u, dds, un, s.running);
        s.(ripples := t.ripples, spawnArmed := t.rearmed)
    case AnimationFrame(now) =>
      if s.pendingFrames == 0 then s
      else
        var again := s.running && FirstThrow(s.ripples, now) == |s.ripples|;
        s.(pendingFrames := s.pendingFrames - 1 + (if again then 1 else 0))
    case VisibilityChange(hidden) =>
      var running := !hidden;
      s.(running := running, pendingFrames := s.pendingFrames + (if running then 1 else 0))
    case PointerDown(cx, cy, rect, now, d) =>
      if !c.interactive then s
      else s.(ripples := Spawn(s.ripples, c.max, Make(c, cx - rect.left, cy - rect.top, now, d)))
  }

  /** The engine's invariant: the list is within `max` and holds only
      positive ripples. */
  predicate Inv(c: Config, s: Field)
  {
    && |s.ripples| as real <= c.max
    && forall i :: 0 <= i < |s.ripples| ==> Positive(s.ripples[i])
  }

  lemma FreshInv(c: Config)
    requires Sane(c)
    ensures Inv(c, Fresh)
  {
  }

  /** Spawning positive ripples into a positive list within the bound
      leaves a positive list within the bound. */
  lemma SpawnAllPositive(rs: seq<Ripple>, max: real, news: seq<Ripple>)
    requires |rs| as real <= max
    requires forall i :: 0 <= i < |rs| ==> Positive(rs[i])
    requires forall i :: 0 <= i < |news| ==> Positive(news[i])
    ensures var out := SpawnAll(rs, max, news);
            && |out| as real <= max
            && forall i :: 0 <= i < |out| ==> Positive(out[i])
  {
    SpawnAllWindow(rs, max, news);
    var out := SpawnAll(rs, max, news);
    var all := rs + news;
    var off := |all| - |out|;
    SpawnAllBounded(rs, max, news);
    forall i | 0 <= i < |out|
      ensures Positive(out[i])
    {
      assert out[i] == all[off + i];
    }
  }

  /** A spawn tick keeps the invariant under a sane configuration and unit draws. */
  lemma SpawnTimerInv(c: Config, s: Field, e: Event)
    requires e.SpawnTimer? && Supplied(c, e) && UnitEvent(e)
    requires Sane(c) && Inv(c, s)
    ensures Inv(c, Step(c, s, e))
  {
    if s.spawnArmed {
      var dds := e.drops;
      var n := Drops(c, e.uExtra);
      var news := Dropped(c, e.rect, dds[..n]);
      forall i | 0 <= i < |news|
        ensures Positive(news[i])
      {
        assert dds[..n][i] == dds[i];
        assert UnitDrop(dds[..n][i]);
      }
      SpawnAllPositive(s.ripples, c.max, news);
    }
  }

  /** One spawn of a positive ripple keeps a positive list positive. */
  lemma SpawnPositive(rs: seq<Ripple>, max: real, r: Ripple)
    requires Positive(r)
    requires forall i :: 0 <= i < |rs| ==> Positive(rs[i])
    ensures var out := Spawn(rs, max, r);
            forall i :: 0 <= i < |out| ==> Positive(out[i])
  {
    var out := Spawn(rs, max, r);
    if |out| > 0 {
      var off := |rs| + 1 - |out|;
      forall i | 0 <= i < |out|
        ensures Positive(out[i])
      {
        if i < |out| - 1 {
          assert out[i] == out[..|out| - 1][i] == rs[off..][i];
        }
      }
    }
  }

  /** A pointer press keeps the invariant under a sane configuration and unit draws. */
  lemma PointerInv(c: Config, s: Field, e: Event)
    requires e.PointerDown? && UnitEvent(e)
    requires Sane(c) && Inv(c, s)
    ensures Inv(c, Step(c, s, e))
  {
    if c.interactive {
      var x, y := e.clientX - e.rect.left, e.clientY - e.rect.top;
      var r := Make(c, x, y, e.now, e.draws);
      assert UnitDraws(e.draws);
      MakePositive(c, x, y, e.now, e.draws);
      SpawnPositive(s.ripples, c.max, r);
      var out := Spawn(s.ripples, c.max, r);
      assert |out| as real <= c.max;
      assert Step(c, s, e) == s.(ripples := out);
    }
  }

  /** Every step keeps the invariant under a sane configuration and unit draws. */
  lemma StepInv(c: Config, s: Field, e: Event)
    requires Sane(c) && Supplied(c, e) && UnitEvent(e) && Inv(c, s)
    ensures Inv(c, Step(c, s, e))
  {
    if e.SpawnTimer? {
      SpawnTimerInv(c, s, e);
    } else if e.PointerDown? {
      PointerInv(c, s, e);
    }
  }

  predicate AllSupplied(c: Config, evs: seq<Event>)
  {
    forall i :: 0 <= i < |evs| ==> Supplied(c, evs[i])
  }

  /** Apply events in order. */
  function Run(c: Config, s: Field, evs: seq<Event>): Field
    requires AllSupplied(c, evs)
    decreases |evs|
  {
    if evs == [] then s else Run(c, Step(c, s, evs[0]), evs[1..])
  }

  /** The invariant holds after any run of well-formed events. */
  lemma {:induction false} RunInv(c: Config, s: Field, evs: seq<Event>)
    requires Sane(c) && Inv(c, s)
    requires AllSupplied(c, evs)
    requires forall i :: 0 <= i < |evs| ==> UnitEvent(evs[i])
    ensures Inv(c, Run(c, s, evs))
    decreases |evs|
  {
    if evs != [] {
      assert Supplied(c, evs[0]) && UnitEvent(evs[0]);
      StepInv(c, s, evs[0]);
      RunInv(c, Step(c, s, evs[0]), evs[1..]);
    }
  }

  /** A spawn tick that finds the engine stopped does not re-arm. */
  lemma StoppedTickDisarms(c: Config, s: Field, e: Event)
    requires e.SpawnTimer? && Supplied(c, e)
    requires s.spawnArmed && !s.running
    ensures !Step(c, s, e).spawnArmed
  {
  }

  /** Once no spawn timer is pending, none ever is again: no event re-arms it. */
  lemma {:induction false} DisarmedForever(c: Config, s: Field, evs: seq<Event>)
    requires AllSupplied(c, evs)
    requires !s.spawnArmed
    ensures !Run(c, s, evs).spawnArmed
    decreases |evs|
  {
    if evs != [] {
      DisarmedForever(c, Step(c, s, evs[0]), evs[1..]);
    }
  }

  predicate NoPointer(evs: seq<Event>)
  {
    forall i :: 0 <= i < |evs| ==> !evs[i].PointerDown?
  }

  /** Without a spawn timer, only pointer presses change the list. */
  lemma {:induction false} DisarmedListFrozen(c: Config, s: Field, evs: seq<Event>)
    requires AllSupplied(c, evs) && NoPointer(evs)
    requires !s.spawnArmed
    ensures Run(c, s, evs).ripples == s.ripples
    decreases |evs|
  {
    if evs != [] {
      assert !evs[0].PointerDown?;
      DisarmedListFrozen(c, Step(c, s, evs[0]), evs[1..]);
    }
  }

  /** Once a spawn tick observes `running == false`, spawning stops for
      good: the timer is never armed again (becoming visible does not re-arm
      it), and apart from pointer presses the list never changes again. */
  lemma SpawningStopsForGood(c: Config, s: Field, e: Event, evs: seq<Event>)
    requires e.SpawnTimer? && Supplied(c, e) && AllSupplied(c, evs)
    requires s.spawnArmed && !s.running
    ensures !Run(c, Step(c, s, e), evs).spawnArmed
    ensures NoPointer(evs) ==> Run(c, Step(c, s, e), evs).ripples == Step(c, s, e).ripples
  {
    StoppedTickDisarms(c, s, e);
    DisarmedForever(c, Step(c, s, e), evs);
    if NoPointer(evs) {
      DisarmedListFrozen(c, Step(c, s, e), evs);
    }
  }

  /** A frame that fires while stopped consumes its callback: the pending
      count drops by one. A frame that fires while running re-requests
      itself unless a ring throws; in an engine keeping its invariant, with
      no ripple from the future, nothing throws and the count is unchanged.
      No frame touches the list. */
  lemma FrameStep(c: Config, s: Field, now: real)
    requires s.pendingFrames > 0
    ensures var s' := Step(c, s, AnimationFrame(now));
            && s'.ripples == s.ripples
            && (!s.running ==> s'.pendingFrames == s.pendingFrames - 1)
            && (s.running && FirstThrow(s.ripples, now) < |s.ripples| ==> s'.pendingFrames == s.pendingFrames - 1)
            && (s.running && FirstThrow(s.ripples, now) == |s.ripples| ==> s'.pendingFrames == s.pendingFrames)
    ensures s.running && Inv(c, s) && (forall i :: 0 <= i < |s.ripples| ==> s.ripples[i].t0 <= now) ==>
              Step(c, s, AnimationFrame(now)).pendingFrames == s.pendingFrames
  {
    if s.running && Inv(c, s) && (forall i :: 0 <= i < |s.ripples| ==> s.ripples[i].t0 <= now) {
      PositiveNeverThrows(s.ripples, now);
    }
  }

  /** One pending `draw` callback runs: it consumes itself, draws what
      `DrawFrame` draws, and stays pending exactly when `DrawFrame` asks
      for the next frame. This is the engine's `AnimationFrame` step. */
  method DrawCallback(c: Config, s: Field, now: real) returns (strokes: seq<Stroke>, s': Field)
    requires s.pendingFrames > 0 && NonZeroDurations(s.ripples)
    ensures s' == Step(c, s, AnimationFrame(now))
    ensures s'.ripples == s.ripples && s'.running == s.running && s'.spawnArmed == s.spawnArmed
    ensures !s.running ==> strokes == [] && s'.pendingFrames == s.pendingFrames - 1
    ensures s.running && FirstThrow(s.ripples, now) == |s.ripples| ==>
              strokes == Strokes(c, s.ripples, now) && s'.pendingFrames == s.pendingFrames
    ensures s.running && FirstThrow(s.ripples, now) < |s.ripples| ==>
              strokes == Strokes(c, s.ripples[..FirstThrow(s.ripples, now)], now)
              && s'.pendingFrames == s.pendingFrames - 1
  {
    var requestFrame;
    strokes, requestFrame := DrawFrame(c, s.ripples, now, s.running);
    assert s.ripples[..|s.ripples|] == s.ripples;
    s' := s.(pendingFrames := s.pendingFrames - 1 + (if requestFrame then 1 else 0));
  }

  /** A frame whose timestamp is earlier than a short-lived ripple's clock
      reading gives it progress -1 and a negative radius: `ctx.arc` throws,
      the callback is consumed without a successor, and drawing stops. */
  lemma EarlyFrameEndsLoop(c: Config)
    ensures var r := Ripple(0.0, 0.0, 10.0, 0.01, 140.0, 0.6);
            && Progress(r, 9.99) == -1.0
            && Throws(r, 9.99)
            && Step(c, Field([r], true, true, 1), AnimationFrame(9.99)).pendingFrames == 0
  {
    var r := Ripple(0.0, 0.0, 10.0, 0.01, 140.0, 0.6);
    assert Progress(r, 9.99) == -1.0;
    assert FirstThrow([r], 9.99) == 0;
  }

  /** A visibility change sets `running` to the page being visible and
      requests one new frame exactly when the page becomes visible; the list
      and the spawn timer are untouched. */
  lemma VisibilityStep(c: Config, s: Field, hidden: bool)
    ensures var s' := Step(c, s, VisibilityChange(hidden));
            && s'.running == !hidden
            && s'.pendingFrames == (if hidden then s.pendingFrames else s.pendingFrames + 1)
            && s'.ripples == s.ripples && s'.spawnArmed == s.spawnArmed
  {
  }

  predicate NeverShown(evs: seq<Event>)
  {
    forall i :: 0 <= i < |evs| ==> evs[i] != VisibilityChange(false)
  }

  /** While the page stays hidden the number of pending frames never grows
      and the engine stays stopped. */
  lemma {:induction false} HiddenFramesDrain(c: Config, s: Field, evs: seq<Event>)
    requires AllSupplied(c, evs) && NeverShown(evs)
    requires !s.running
    ensures Run(c, s, evs).pendingFrames <= s.pendingFrames
    ensures !Run(c, s, evs).running
    decreases |evs|
  {
    if evs != [] {
      assert evs[0] != VisibilityChange(false);
      HiddenFramesDrain(c, Step(c, s, evs[0]), evs[1..]);
    }
  }

  /** `k` rounds of hiding and showing the page. */
  function HideShow(k: nat): (evs: seq<Event>)
    ensures |evs| == 2 * k
    ensures forall i :: 0 <= i < |evs| ==> evs[i] == VisibilityChange(i % 2 == 0)
  {
    if k == 0 then [] else [VisibilityChange(true), VisibilityChange(false)] + HideShow(k - 1)
  }

  /** A hidden page gets no animation frames, so a pending `draw` callback
      is still pending when the page is shown again: each hide/show round
      adds one more pending callback, and nothing else changes. */
  lemma {:induction false} HideShowStacksFrames(c: Config, s: Field, k: nat)
    ensures AllSupplied(c, HideShow(k))
    ensures var s' := Run(c, s, HideShow(k));
            && s'.pendingFrames == s.pendingFrames + k
            && s'.ripples == s.ripples && s'.spawnArmed == s.spawnArmed
            && (k > 0 ==> s'.running)
    decreases k
  {
    var evs := HideShow(k);
    assert forall i :: 0 <= i < |evs| ==> evs[i].VisibilityChange?;
    if k > 0 {
      var rest := HideShow(k - 1);
      var s1 := Step(c, s, VisibilityChange(true));
      var s2 := Step(c, s1, VisibilityChange(false));
      HideShowStacksFrames(c, s2, k - 1);
      assert evs[0] == VisibilityChange(true) && evs[1..][0] == VisibilityChange(false);
      assert evs[1..][1..] == rest;
      assert Run(c, s, evs) == Run(c, s1, evs[1..]) == Run(c, s2, rest);
    }
  }

  /** From a fresh engine, `k` hide/show rounds with no frame in between
      leave `1 + k` draw loops running: every later frame keeps them all. */
  lemma ResumeStacksLoops(c: Config, k: nat, now: real)
    ensures AllSupplied(c, HideShow(k))
    ensures var s := Run(c, Fresh, HideShow(k));
            && s.running && s.pendingFrames == 1 + k
            && Step(c, s, AnimationFrame(now)).pendingFrames == 1 + k
  {
    HideShowStacksFrames(c, Fresh, k);
  }

  /** The handler does not guard against a frame that is already pending:
      hiding and showing the page before the pending frame fires leaves two
      frame callbacks pending, and each re-requests itself, so two draw
      loops run from then on. */
  lemma ResumeCanDoubleFrames(c: Config)
    ensures var s := Run(c, Fresh, [VisibilityChange(true), VisibilityChange(false)]);
            && s.running && s.pendingFrames == 2
            && Step(c, s, AnimationFrame(0.0)).pendingFrames == 2
  {
  }
}
