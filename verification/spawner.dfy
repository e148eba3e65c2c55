/**
 One run of the self-rescheduling spawn timer (`randomSpawn`).

 A tick decides how many drops to emit, spawns each at a uniformly drawn
 point of the canvas rectangle, draws the delay to its next run and re-arms
 the timer only if the engine is still running at that moment.
 */
module Spawner {
  import opened Options
  import opened Ripples

  /** The canvas' bounding rectangle in viewport coordinates. */
  datatype Rect = Rect(left: real, top: real, width: real, height: real)

  /** The draws one iteration of the drop loop consumes: two for the
      position, the clock reading, and the three `spawnRipple` makes. */
  datatype DropDraw = DropDraw(ux: real, uy: real, now: real, draws: Draws)

  predicate UnitDrop(dd: DropDraw)
  {
    Unit(dd.ux) && Unit(dd.uy) && UnitDraws(dd.draws)
  }

  /** `baseDrops + (u < extraProb ? extraCount : 0)`. */
  function DropCount(c: Config, uExtra: real): (n: real)
    ensures n == c.baseDrops || n == c.baseDrops + c.extraCount
  {
    c.baseDrops + (if uExtra < c.extraProb then c.extraCount else 0.0)
  }

  /** With a nonzero `extraCount` (always the case after defaulting) the
      extra drops are added exactly when the draw falls below `extraProb`. */
  lemma DropCountExtraIff(c: Config, uExtra: real)
    requires c.extraCount != 0.0
    ensures DropCount(c, uExtra) == c.baseDrops + c.extraCount <==> uExtra < c.extraProb
  {
  }

  /** `extraProb: 0` (kept by `??`) never adds drops; `extraProb: 1` always does. */
  lemma ExtraProbExtremes(c: Config, uExtra: real)
    requires Unit(uExtra)
    ensures c.extraProb <= 0.0 ==> DropCount(c, uExtra) == c.baseDrops
    ensures c.extraProb >= 1.0 ==> DropCount(c, uExtra) == c.baseDrops + c.extraCount
  {
  }

  /** How many times `for (let i = 0; i < d; i++)` runs: the least
      natural number not below `d`. */
  function LoopCount(d: real): (n: nat)
    ensures d <= n as real
    ensures n == 0 || ((n - 1) as real) < d
  {
    if d <= 0.0 then 0
    else if d.Floor as real == d then d.Floor
    else d.Floor + 1
  }

  /** The point `randomSpawn` picks, translated back to canvas-local coordinates. */
  function DropRipple(c: Config, rect: Rect, dd: DropDraw): (r: Ripple)
    ensures Unit(dd.ux) && rect.width > 0.0 ==> 0.0 <= r.x < rect.width
    ensures Unit(dd.uy) && rect.height > 0.0 ==> 0.0 <= r.y < rect.height
    ensures r == Make(c, r.x, r.y, dd.now, dd.draws)
    ensures Sane(c) && UnitDraws(dd.draws) ==> Positive(r)
  {
    var x := Uniform(rect.left, rect.width, dd.ux);
    var y := Uniform(rect.top, rect.height, dd.uy);
    Make(c, x - rect.left, y - rect.top, dd.now, dd.draws)
  }

  /** The ripples the drop loop creates, in loop order: the `i`-th one
      starts at the `i`-th clock reading, lands inside a non-degenerate
      canvas, and is positive under a sane configuration. */
  function Dropped(c: Config, rect: Rect, dds: seq<DropDraw>): (rs: seq<Ripple>)
    ensures |rs| == |dds|
    ensures forall i :: 0 <= i < |dds| ==> rs[i].t0 == dds[i].now
    ensures forall i :: 0 <= i < |dds| && UnitDrop(dds[i]) && rect.width > 0.0 && rect.height > 0.0 ==>
              0.0 <= rs[i].x < rect.width && 0.0 <= rs[i].y < rect.height
    ensures forall i :: 0 <= i < |dds| && Sane(c) && UnitDrop(dds[i]) ==> Positive(rs[i])
  {
    seq(|dds|, i requires 0 <= i < |dds| => DropRipple(c, rect, dds[i]))
  }

  /** `spawnMin + u * spawnVar`: the delay before the next tick. */
  function NextDelay(c: Config, u: real): (t: real)
    ensures Unit(u) && c.spawnVar > 0.0 ==> c.spawnMin <= t < c.spawnMin + c.spawnVar
  {
    Uniform(c.spawnMin, c.spawnVar, u)
  }

  /** What a tick leaves behind: the list, the drawn delay, and whether the
      timer was set again. */
  datatype Tick = Tick(ripples: seq<Ripple>, delay: real, rearmed: bool)

  /** The number of drops a tick with extra-draw `uExtra` emits. */
  function Drops(c: Config, uExtra: real): nat
  {
    LoopCount(DropCount(c, uExtra))
  }

  /** One run of `randomSpawn`; `running` is the flag's value when the
      tick reaches its re-arm test. */
  function SpawnTick(c: Config, rs: seq<Ripple>, rect: Rect, uExtra: real,
                     dds: seq<DropDraw>, uNext: real, running: bool): (t: Tick)
    requires |dds| >= Drops(c, uExtra)
    ensures t.rearmed <==> running
    ensures Unit(uNext) && c.spawnVar > 0.0 ==> c.spawnMin <= t.delay < c.spawnMin + c.spawnVar
    ensures |rs| as real <= c.max ==> |t.ripples| as real <= c.max
  {
    var news := Dropped(c, rect, dds[..Drops(c, uExtra)]);
    assert |rs| as real <= c.max ==> |SpawnAll(rs, c.max, news)| as real <= c.max by {
      if |rs| as real <= c.max { SpawnAllBounded(rs, c.max, news); }
    }
    Tick(SpawnAll(rs, c.max, news), NextDelay(c, uNext), running)
  }

  /** A tick on a list within the bound appends its drops after the
      surviving old ripples, in loop order; the newest `max` survive. */
  lemma SpawnTickWindow(c: Config, rs: seq<Ripple>, rect: Rect, uExtra: real,
                        dds: seq<DropDraw>, uNext: real, running: bool)
    requires |dds| >= Drops(c, uExtra)
    requires |rs| as real <= c.max
    ensures var n := Drops(c, uExtra);
            var out := SpawnTick(c, rs, rect, uExtra, dds, uNext, running).ripples;
            var all := rs + Dropped(c, rect, dds[..n]);
            && |out| == MinInt(|rs| + n, c.max.Floor)
            && out == all[|all| - |out|..]
  {
    SpawnAllWindow(rs, c.max, Dropped(c, rect, dds[..Drops(c, uExtra)]));
  }

  /** Under the default counts a tick emits one drop, or two when the
      extra draw succeeds. */
  lemma DefaultDrops(uExtra: real)
    ensures Drops(Defaults, uExtra) == if uExtra < 0.5 then 2 else 1
  {
  }
}
