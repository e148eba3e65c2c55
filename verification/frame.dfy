/**
 The per-frame geometry of `draw`.

 For each ripple the frame computes its progress `p = min(1, elapsed/dur)`,
 skips it once `p >= 1`, and otherwise strokes a ring whose radius grows
 from 10% to 100% of `rMax`, whose alpha fades linearly to zero and whose
 width thickens to twice its base. The list itself is never changed here.
 */
module Frame {
  import opened Options
  import opened Ripples

  function MinReal(a: real, b: real): real
  {
    if a <= b then a else b
  }

  /** `Math.min(1, (now - t0) / dur)`. */
  function Progress(r: Ripple, now: real): (p: real)
    requires r.dur != 0.0
    ensures p <= 1.0
    ensures r.dur > 0.0 && r.t0 <= now ==> 0.0 <= p
  {
    MinReal(1.0, (now - r.t0) / r.dur)
  }

  /** A ripple is drawn only while its progress is below 1. */
  predicate Live(r: Ripple, now: real)
    requires r.dur != 0.0
  {
    Progress(r, now) < 1.0
  }

  /** Scaling by a positive factor keeps a strict order. */
  lemma MulLt(a: real, b: real, d: real)
    requires d > 0.0 && a < b
    ensures a * d < b * d
  {
    assert b * d - a * d == (b - a) * d;
  }

  /** Scaling by a positive factor keeps a weak order. */
  lemma MulLe(a: real, b: real, d: real)
    requires d > 0.0 && a <= b
    ensures a * d <= b * d
  {
    assert b * d - a * d == (b - a) * d;
  }

  /** With a positive lifetime, a ripple is live exactly while less than
      `dur` has elapsed since it was spawned. */
  lemma LiveIffYoung(r: Ripple, now: real)
    requires r.dur > 0.0
    ensures Live(r, now) <==> now - r.t0 < r.dur
  {
    var q := (now - r.t0) / r.dur;
    assert q * r.dur == now - r.t0;
    if q < 1.0 {
      MulLt(q, 1.0, r.dur);
    } else {
      MulLe(1.0, q, r.dur);
    }
  }

  /** Progress never decreases as the clock advances. */
  lemma ProgressMonotone(r: Ripple, now1: real, now2: real)
    requires r.dur > 0.0 && now1 <= now2
    ensures Progress(r, now1) <= Progress(r, now2)
  {
    var e1, e2 := now1 - r.t0, now2 - r.t0;
    assert e1 / r.dur <= e2 / r.dur by {
      assert e2 / r.dur - e1 / r.dur == (e2 - e1) / r.dur;
    }
  }

  function Radius(rMax: real, p: real): real
  {
    rMax * (0.10 + 0.90 * p)
  }

  function Fade(p: real, base: real): real
  {
    (1.0 - p) * base
  }

  function Width(lw: real, p: real): real
  {
    lw * (1.0 + p * 1.0)
  }

  /** The stroke colour's alpha: the faded alpha times the brightness, clamped to 1. */
  function StrokeAlpha(alpha: real, bright: real): (a: real)
    ensures a <= 1.0
    ensures a == 1.0 || a == alpha * bright
    ensures alpha * bright <= 1.0 ==> a == alpha * bright
  {
    MinReal(1.0, alpha * bright)
  }

  /** For progress in `[0, 1)` the ring stays between 10% and 100% of its
      final radius, its alpha in `(0, base]`, its width in `[lw, 2 lw)`. */
  lemma RingBounds(rMax: real, lw: real, base: real, p: real)
    requires 0.0 <= p < 1.0
    requires rMax > 0.0 && lw > 0.0 && base > 0.0
    ensures 0.10 * rMax <= Radius(rMax, p) < rMax
    ensures 0.0 < Fade(p, base) <= base
    ensures lw <= Width(lw, p) < 2.0 * lw
  {
    assert rMax * p < rMax * 1.0;
    assert base * p < base * 1.0;
    assert lw * p < lw * 1.0;
  }

  /** As progress advances the radius and width never shrink and the
      alpha never grows. */
  lemma RingMonotone(rMax: real, lw: real, base: real, p: real, q: real)
    requires p <= q
    requires rMax >= 0.0 && lw >= 0.0 && base >= 0.0
    ensures Radius(rMax, p) <= Radius(rMax, q)
    ensures Fade(p, base) >= Fade(q, base)
    ensures Width(lw, p) <= Width(lw, q)
  {
    assert rMax * p <= rMax * q;
    assert base * p <= base * q;
    assert lw * p <= lw * q;
  }

  /** One `ctx.stroke()`: centre, radius, width, stroke alpha, the glow's
      alpha (`alpha * 0.35`) and the colour. */
  datatype Stroke = Stroke(x: real, y: real, radius: real, width: real,
                           alpha: real, glow: real, color: Rgb)

  /** The ring `draw` strokes for a live ripple. */
  function StrokeFor(c: Config, r: Ripple, now: real): (s: Stroke)
    requires r.dur != 0.0
    ensures s.alpha <= 1.0
    ensures s.x == r.x && s.y == r.y && s.color == c.color
  {
    var p := Progress(r, now);
    var alpha := Fade(p, c.alpha);
    Stroke(r.x, r.y, Radius(r.rMax, p), Width(r.lw, p),
           StrokeAlpha(alpha, c.bright), alpha * 0.35, c.color)
  }

  /** The ring of a positive ripple that is live and not from the future
      stays within the bounds `RingBounds` gives, with a positive stroke
      alpha of at most 1 and a glow weaker than the stroke's faded alpha. */
  lemma StrokeForBounds(c: Config, r: Ripple, now: real)
    requires Positive(r) && r.t0 <= now && Live(r, now)
    requires c.alpha > 0.0 && c.bright > 0.0
    ensures var s := StrokeFor(c, r, now);
            && 0.10 * r.rMax <= s.radius < r.rMax
            && r.lw <= s.width < 2.0 * r.lw
            && 0.0 < s.alpha <= 1.0
            && 0.0 < s.glow < Fade(Progress(r, now), c.alpha)
  {
    var p := Progress(r, now);
    RingBounds(r.rMax, r.lw, c.alpha, p);
    var a := Fade(p, c.alpha);
    assert 0.0 < a * c.bright;
  }

  predicate NonZeroDurations(rs: seq<Ripple>)
  {
    forall i :: 0 <= i < |rs| ==> rs[i].dur != 0.0
  }

  /** How many ripples are still live at `now`. */
  function LiveCount(rs: seq<Ripple>, now: real): (n: nat)
    requires NonZeroDurations(rs)
    ensures n <= |rs|
  {
    if rs == [] then 0
    else LiveCount(rs[..|rs| - 1], now) + (if Live(rs[|rs| - 1], now) then 1 else 0)
  }

  /** The strokes of one frame, in list order: one per live ripple, none
      for a ripple whose progress reached 1. */
  function Strokes(c: Config, rs: seq<Ripple>, now: real): (ss: seq<Stroke>)
    requires NonZeroDurations(rs)
    ensures |ss| == LiveCount(rs, now)
    ensures forall k :: 0 <= k < |ss| ==> ss[k].alpha <= 1.0
  {
    if rs == [] then []
    else
      var last := rs[|rs| - 1];
      Strokes(c, rs[..|rs| - 1], now) + (if Live(last, now) then [StrokeFor(c, last, now)] else [])
  }

  /** Every stroke of a frame is the ring of some ripple that is live at `now`. */
  lemma {:induction false} StrokesFromLive(c: Config, rs: seq<Ripple>, now: real, k: int)
    requires NonZeroDurations(rs)
    requires 0 <= k < |Strokes(c, rs, now)|
    ensures exists j :: 0 <= j < |rs| && Live(rs[j], now) && Strokes(c, rs, now)[k] == StrokeFor(c, rs[j], now)
  {
    var init := rs[..|rs| - 1];
    var ss0 := Strokes(c, init, now);
    if k < |ss0| {
      StrokesFromLive(c, init, now, k);
      var j :| 0 <= j < |init| && Live(init[j], now) && ss0[k] == StrokeFor(c, init[j], now);
      assert init[j] == rs[j];
    } else {
      var j := |rs| - 1;
      assert Live(rs[j], now) && Strokes(c, rs, now)[k] == StrokeFor(c, rs[j], now);
    }
  }

  /** A frame in which every ripple has expired strokes nothing; one in
      which every ripple is live strokes each of them. */
  lemma {:induction false} StrokesAllOrNothing(c: Config, rs: seq<Ripple>, now: real)
    requires NonZeroDurations(rs)
    ensures (forall i :: 0 <= i < |rs| ==> !Live(rs[i], now)) ==> Strokes(c, rs, now) == []
    ensures (forall i :: 0 <= i < |rs| ==> Live(rs[i], now)) ==> |Strokes(c, rs, now)| == |rs|
  {
    if rs != [] {
      var init := rs[..|rs| - 1];
      StrokesAllOrNothing(c, init, now);
      assert forall i :: 0 <= i < |init| ==> init[i] == rs[i];
    }
  }

  /** `ctx.arc` throws on a negative radius, so a live ripple whose ring
      has one aborts the frame. A zero lifetime never throws: its progress
      is infinite or NaN in JavaScript, and `arc` ignores non-finite radii. */
  predicate Throws(r: Ripple, now: real)
  {
    r.dur != 0.0 && Live(r, now) && Radius(r.rMax, Progress(r, now)) < 0.0
  }

  /** The index of the first ripple whose ring throws, or `|rs|` if none does. */
  function FirstThrow(rs: seq<Ripple>, now: real): (k: nat)
    ensures k <= |rs|
    ensures forall i :: 0 <= i < k ==> !Throws(rs[i], now)
    ensures k < |rs| ==> Throws(rs[k], now)
  {
    if rs == [] then 0
    else if Throws(rs[0], now) then 0
    else 1 + FirstThrow(rs[1..], now)
  }

  /** A positive ripple that is not from the future never throws, so a
      positive list is drawn to the end. */
  lemma {:induction false} PositiveNeverThrows(rs: seq<Ripple>, now: real)
    requires forall i :: 0 <= i < |rs| ==> Positive(rs[i]) && rs[i].t0 <= now
    ensures FirstThrow(rs, now) == |rs|
  {
    if rs != [] {
      var r := rs[0];
      var p := Progress(r, now);
      assert 0.0 <= p;
      assert Radius(r.rMax, p) > 0.0 by {
        assert 0.10 + 0.90 * p > 0.0;
      }
      PositiveNeverThrows(rs[1..], now);
    }
  }

  /** The body of `draw(now)`: nothing at all when not running; otherwise
      walk the list front to back, skip expired ripples and stroke the rest.
      The first live ring with a negative radius makes `ctx.arc` throw:
      the rings before it are drawn and the next frame is never requested. */
  method DrawFrame(c: Config, rs: seq<Ripple>, now: real, running: bool)
    returns (strokes: seq<Stroke>, requestFrame: bool)
    requires NonZeroDurations(rs)
    ensures !running ==> strokes == [] && !requestFrame
    ensures running ==> strokes == Strokes(c, rs[..FirstThrow(rs, now)], now)
    ensures requestFrame <==> running && FirstThrow(rs, now) == |rs|
    ensures |strokes| <= |rs|
  {
    strokes := [];
    requestFrame := false;
    if !running {
      return;
    }
    var i := 0;
    while i < |rs|
      invariant 0 <= i <= FirstThrow(rs, now)
      invariant strokes == Strokes(c, rs[..i], now)
    {
      assert rs[..i + 1][..i] == rs[..i];
      var r := rs[i];
      var p := Progress(r, now);
      if p >= 1.0 {
        i := i + 1;
        continue;
      }
      if Radius(r.rMax, p) < 0.0 {
        assert Throws(rs[i], now);
        return;
      }
      strokes := strokes + [StrokeFor(c, r, now)];
      i := i + 1;
    }
    assert rs[..i] == rs;
    requestFrame := true;
  }

  /** A ripple of duration 1000 and final radius 100 starts at radius 10
      and full alpha, is at radius 55 and half alpha halfway, and is not
      drawn once its duration has elapsed. */
  lemma FadeScenario(c: Config, x: real, y: real, t0: real, lw: real)
    ensures var r := Ripple(x, y, t0, 1000.0, 100.0, lw);
            && Progress(r, t0) == 0.0
            && Radius(r.rMax, Progress(r, t0)) == 10.0
            && Fade(Progress(r, t0), c.alpha) == c.alpha
            && Progress(r, t0 + 500.0) == 0.5
            && Radius(r.rMax, Progress(r, t0 + 500.0)) == 55.0
            && Fade(Progress(r, t0 + 500.0), c.alpha) == 0.5 * c.alpha
            && !Live(r, t0 + 1000.0)
            && Strokes(c, [r], t0 + 1000.0) == []
  {
    var r := Ripple(x, y, t0, 1000.0, 100.0, lw);
    assert [r][..0] == [];
  }
}
