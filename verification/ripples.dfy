/**
 Ripple records and the bounded list `spawnRipple` appends to.

 Each spawn pushes one record and, if the list then holds more than the
 configured maximum, shifts exactly one element off the front: the list is
 a FIFO window over everything ever spawned.
 */
module Ripples {
  import opened Options

  /** One expanding ring: centre, start time, lifetime, final radius and base width. */
  datatype Ripple = Ripple(x: real, y: real, t0: real, dur: real, rMax: real, lw: real)

  /** The three `Math.random()` values `spawnRipple` draws, in call order. */
  datatype Draws = Draws(uDur: real, uRad: real, uLw: real)

  /** A value `Math.random()` can return. */
  predicate Unit(u: real)
  {
    0.0 <= u < 1.0
  }

  predicate UnitDraws(d: Draws)
  {
    Unit(d.uDur) && Unit(d.uRad) && Unit(d.uLw)
  }

  /** `lo + u * span`: a uniform draw from `[lo, lo + span)`. */
  function Uniform(lo: real, span: real, u: real): (v: real)
    ensures Unit(u) && span > 0.0 ==> lo <= v < lo + span
    ensures Unit(u) && span >= 0.0 ==> lo <= v <= lo + span
  {
    lo + u * span
  }

  /** The record `spawnRipple(x, y)` pushes at clock reading `now`. */
  function Make(c: Config, x: real, y: real, now: real, d: Draws): (r: Ripple)
    ensures r.x == x && r.y == y && r.t0 == now
    ensures Unit(d.uDur) && c.durVar > 0.0 ==> c.durMin <= r.dur < c.durMin + c.durVar
    ensures Unit(d.uRad) && c.rVar > 0.0 ==> c.rMin <= r.rMax < c.rMin + c.rVar
    ensures Unit(d.uLw) && c.lwVar > 0.0 ==> c.lwMin <= r.lw < c.lwMin + c.lwVar
  {
    Ripple(x, y, now,
           Uniform(c.durMin, c.durVar, d.uDur),
           Uniform(c.rMin, c.rVar, d.uRad),
           Uniform(c.lwMin, c.lwVar, d.uLw))
  }

  /** A ripple whose lifetime, radius and width are all positive. */
  predicate Positive(r: Ripple)
  {
    r.dur > 0.0 && r.rMax > 0.0 && r.lw > 0.0
  }

  /** Under a sane configuration every spawned ripple is positive. */
  lemma MakePositive(c: Config, x: real, y: real, now: real, d: Draws)
    requires Sane(c) && UnitDraws(d)
    ensures Positive(Make(c, x, y, now, d))
  {
  }

  /** Push `r`, then shift the oldest element if the list outgrew `max`. */
  function Spawn(rs: seq<Ripple>, max: real, r: Ripple): (rs': seq<Ripple>)
    ensures |rs'| == if (|rs| + 1) as real <= max then |rs| + 1 else |rs|
    ensures |rs| as real <= max ==> |rs'| as real <= max
    ensures |rs'| > 0 ==> rs'[|rs'| - 1] == r && rs'[..|rs'| - 1] == rs[|rs| + 1 - |rs'|..]
  {
    var pushed := rs + [r];
    if |pushed| as real > max then
      assert |rs| > 0 ==> pushed[1..][..|rs| - 1] == rs[1..];
      pushed[1..]
    else
      assert pushed[..|rs|] == rs;
      pushed
  }

  function MinInt(a: int, b: int): int
  {
    if a <= b then a else b
  }

  /** Spawn each of `news` in order. */
  function SpawnAll(rs: seq<Ripple>, max: real, news: seq<Ripple>): seq<Ripple>
    decreases |news|
  {
    if news == [] then rs else SpawnAll(Spawn(rs, max, news[0]), max, news[1..])
  }

  /** An integer fits under a real bound exactly when it fits under its floor. */
  lemma FitsFloor(n: int, max: real)
    ensures n as real <= max <==> n <= max.Floor
  {
  }

  /** `out` is the newest `min(|rs| + |news|, cap)` elements of `rs + news`. */
  predicate Window(rs: seq<Ripple>, news: seq<Ripple>, out: seq<Ripple>, cap: int)
  {
    && |out| == MinInt(|rs| + |news|, cap)
    && out == (rs + news)[|rs| + |news| - |out|..]
  }

  /** One spawn on a list within the bound keeps the newest
      `min(|rs| + 1, floor(max))` elements of `rs + [r]`. */
  lemma SpawnWindow(rs: seq<Ripple>, max: real, r: Ripple)
    requires |rs| as real <= max
    ensures Window(rs, [r], Spawn(rs, max, r), max.Floor)
  {
    FitsFloor(|rs|, max);
    FitsFloor(|rs| + 1, max);
    var rs' := Spawn(rs, max, r);
    if |rs'| > 0 {
      assert rs' == rs'[..|rs'| - 1] + [rs'[|rs'| - 1]];
    }
  }

  /** Composing two window steps: if `rs1` is the newest part of
      `rs + [x]` and `out` the newest part of `rs1 + tail`, then `out` is the
      newest part of `rs + ([x] + tail)`. */
  lemma WindowCompose(rs: seq<Ripple>, x: Ripple, tail: seq<Ripple>,
                      rs1: seq<Ripple>, out: seq<Ripple>, cap: int)
    requires |rs| <= cap
    requires Window(rs, [x], rs1, cap)
    requires Window(rs1, tail, out, cap)
    ensures Window(rs, [x] + tail, out, cap)
  {
    var d := |rs| + 1 - |rs1|;
    assert rs + ([x] + tail) == (rs + [x]) + tail;
    assert rs1 + tail == (rs + ([x] + tail))[d..];
  }

  /** One unfolding of `SpawnAll`. */
  lemma SpawnAllCons(rs: seq<Ripple>, max: real, news: seq<Ripple>)
    requires news != []
    ensures news == [news[0]] + news[1..]
    ensures SpawnAll(rs, max, news) == SpawnAll(Spawn(rs, max, news[0]), max, news[1..])
  {
  }

  /** As long as the list was within the bound, spawning any number of
      ripples leaves exactly the newest `min(total, floor(max))` of the old
      list followed by the new ones, in spawn order. */
  lemma {:induction false} SpawnAllWindow(rs: seq<Ripple>, max: real, news: seq<Ripple>)
    requires |rs| as real <= max
    ensures Window(rs, news, SpawnAll(rs, max, news), max.Floor)
    decreases |news|
  {
    FitsFloor(|rs|, max);
    if news == [] {
      assert rs + news == rs;
    } else {
      var rs1 := Spawn(rs, max, news[0]);
      SpawnWindow(rs, max, news[0]);
      SpawnAllWindow(rs1, max, news[1..]);
      SpawnAllCons(rs, max, news);
      WindowCompose(rs, news[0], news[1..], rs1, SpawnAll(rs1, max, news[1..]), max.Floor);
    }
  }

  /** The bound `|list| <= max` survives any number of spawns. */
  lemma SpawnAllBounded(rs: seq<Ripple>, max: real, news: seq<Ripple>)
    requires |rs| as real <= max
    ensures |SpawnAll(rs, max, news)| as real <= max
  {
    SpawnAllWindow(rs, max, news);
  }

  /** Ripples with `max = 2`: spawning A, B, C in order leaves [B, C]. */
  lemma FifoScenario(a: Ripple, b: Ripple, c: Ripple)
    ensures SpawnAll([], 2.0, [a, b, c]) == [b, c]
  {
    SpawnAllWindow([], 2.0, [a, b, c]);
  }
}
