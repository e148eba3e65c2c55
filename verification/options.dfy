/**
 The option record handed to `startRipples` and the way the script reads it.

 Every numeric option except `extraProb` is read as `opts.k || default`, so
 a missing value and an explicit `0` both fall back to the default;
 `extraProb` is read as `opts.extraProb ?? 0.5`, which keeps an explicit `0`.
 */
module Options {

  datatype Option<+T> = None | Some(value: T)

  /** An RGB triple as given in `opts.color`. */
  datatype Rgb = Rgb(red: int, green: int, blue: int)

  /** `opts.k || d` on a number: a missing option and `0` are both falsy. */
  function OrDefault(o: Option<real>, d: real): (r: real)
    ensures o == None || o == Some(0.0) ==> r == d
    ensures o.Some? && o.value != 0.0 ==> r == o.value
  {
    match o
    case None => d
    case Some(v) => if v == 0.0 then d else v
  }

  /** `opts.k ?? d`: only a missing option falls back. */
  function Nullish(o: Option<real>, d: real): (r: real)
    ensures o == None ==> r == d
    ensures o.Some? ==> r == o.value
  {
    match o
    case None => d
    case Some(v) => v
  }

  /** The two readings disagree exactly on an explicit zero. */
  lemma OrDefaultVsNullish(o: Option<real>, d: real)
    ensures OrDefault(o, d) != Nullish(o, d) <==> o == Some(0.0) && d != 0.0
  {
  }

  /** A nonzero default makes an `||` read nonzero whatever was given. */
  lemma OrDefaultNeverZero(o: Option<real>, d: real)
    requires d != 0.0
    ensures OrDefault(o, d) != 0.0
  {
  }

  /** A nonnegative given value and a positive default give a positive result. */
  lemma OrDefaultPositive(o: Option<real>, d: real)
    requires d > 0.0
    requires o.Some? ==> o.value >= 0.0
    ensures OrDefault(o, d) > 0.0
  {
  }

  /** The options object as the caller may write it. `fullscreen` only
      affects canvas sizing, which is not part of this model. */
  datatype RawOptions = RawOptions(
    alpha: Option<real>, bright: Option<real>,
    rMin: Option<real>, rVar: Option<real>,
    durMin: Option<real>, durVar: Option<real>,
    lwMin: Option<real>, lwVar: Option<real>,
    max: Option<real>,
    spawnMin: Option<real>, spawnVar: Option<real>,
    baseDrops: Option<real>, extraProb: Option<real>, extraCount: Option<real>,
    firstDelay: Option<real>,
    color: Option<Rgb>,
    interactive: bool)

  /** The values the engine actually uses once the defaults are applied. */
  datatype Config = Config(
    alpha: real, bright: real,
    rMin: real, rVar: real,
    durMin: real, durVar: real,
    lwMin: real, lwVar: real,
    max: real,
    spawnMin: real, spawnVar: real,
    baseDrops: real, extraProb: real, extraCount: real,
    firstDelay: real,
    color: Rgb,
    interactive: bool)

  const DefaultColor := Rgb(255, 106, 167)

  /** The script's fallback for every option. */
  const Defaults := Config(
    0.5, 0.6,
    140.0, 200.0,
    1400.0, 900.0,
    0.6, 0.6,
    50.0,
    240.0, 700.0,
    1.0, 0.5, 1.0,
    300.0,
    DefaultColor,
    false)

  const NoOptions := RawOptions(None, None, None, None, None, None, None, None,
                                None, None, None, None, None, None, None, None, false)

  /** Applies the script's defaulting to every option. An array is always
      truthy in JavaScript, so any given colour is kept. */
  function Resolve(o: RawOptions): (c: Config)
    ensures c.max != 0.0 && c.durMin != 0.0 && c.durVar != 0.0 && c.rMin != 0.0 && c.rVar != 0.0
    ensures c.lwMin != 0.0 && c.lwVar != 0.0 && c.alpha != 0.0 && c.bright != 0.0
    ensures c.spawnMin != 0.0 && c.spawnVar != 0.0 && c.firstDelay != 0.0
    ensures c.baseDrops != 0.0 && c.extraCount != 0.0
    ensures c.extraProb == 0.0 <==> o.extraProb == Some(0.0)
    ensures o.color.None? ==> c.color == DefaultColor
    ensures o.color.Some? ==> c.color == o.color.value
    ensures c.interactive == o.interactive
  {
    Config(
      OrDefault(o.alpha, Defaults.alpha), OrDefault(o.bright, Defaults.bright),
      OrDefault(o.rMin, Defaults.rMin), OrDefault(o.rVar, Defaults.rVar),
      OrDefault(o.durMin, Defaults.durMin), OrDefault(o.durVar, Defaults.durVar),
      OrDefault(o.lwMin, Defaults.lwMin), OrDefault(o.lwVar, Defaults.lwVar),
      OrDefault(o.max, Defaults.max),
      OrDefault(o.spawnMin, Defaults.spawnMin), OrDefault(o.spawnVar, Defaults.spawnVar),
      OrDefault(o.baseDrops, Defaults.baseDrops),
      Nullish(o.extraProb, Defaults.extraProb),
      OrDefault(o.extraCount, Defaults.extraCount),
      OrDefault(o.firstDelay, Defaults.firstDelay),
      if o.color.Some? then o.color.value else DefaultColor,
      o.interactive)
  }

  /** Every option written as `0`. */
  const AllZero := RawOptions(
    Some(0.0), Some(0.0), Some(0.0), Some(0.0), Some(0.0), Some(0.0), Some(0.0), Some(0.0),
    Some(0.0), Some(0.0), Some(0.0), Some(0.0), Some(0.0), Some(0.0), Some(0.0), None, false)

  /** Zero acts as the default for every `||` option (`max: 0` is 50,
      `durMin: 0` is 1400), while `extraProb: 0` stays 0. */
  lemma ZeroActsAsDefault()
    ensures Resolve(AllZero) == Defaults.(extraProb := 0.0)
    ensures Resolve(AllZero).max == 50.0 && Resolve(AllZero).durMin == 1400.0
    ensures Resolve(NoOptions) == Defaults
  {
  }

  /** The effective configuration has positive ranges, counts and bound. */
  predicate Sane(c: Config)
  {
    && c.alpha > 0.0 && c.bright > 0.0
    && c.rMin > 0.0 && c.rVar > 0.0
    && c.durMin > 0.0 && c.durVar > 0.0
    && c.lwMin > 0.0 && c.lwVar > 0.0
    && c.max > 0.0
    && c.spawnMin > 0.0 && c.spawnVar > 0.0
    && c.baseDrops > 0.0 && c.extraCount > 0.0
    && c.firstDelay > 0.0
  }

  /** No numeric option is negative (missing options are fine). */
  predicate NonNegative(o: RawOptions)
  {
    && (o.alpha.Some? ==> o.alpha.value >= 0.0)
    && (o.bright.Some? ==> o.bright.value >= 0.0)
    && (o.rMin.Some? ==> o.rMin.value >= 0.0)
    && (o.rVar.Some? ==> o.rVar.value >= 0.0)
    && (o.durMin.Some? ==> o.durMin.value >= 0.0)
    && (o.durVar.Some? ==> o.durVar.value >= 0.0)
    && (o.lwMin.Some? ==> o.lwMin.value >= 0.0)
    && (o.lwVar.Some? ==> o.lwVar.value >= 0.0)
    && (o.max.Some? ==> o.max.value >= 0.0)
    && (o.spawnMin.Some? ==> o.spawnMin.value >= 0.0)
    && (o.spawnVar.Some? ==> o.spawnVar.value >= 0.0)
    && (o.baseDrops.Some? ==> o.baseDrops.value >= 0.0)
    && (o.extraProb.Some? ==> o.extraProb.value >= 0.0)
    && (o.extraCount.Some? ==> o.extraCount.value >= 0.0)
    && (o.firstDelay.Some? ==> o.firstDelay.value >= 0.0)
  }

  /** Because `0` falls back to a positive default, nonnegative options
      always give a sane configuration: every range has a positive width. */
  lemma NonNegativeOptionsAreSane(o: RawOptions)
    requires NonNegative(o)
    ensures Sane(Resolve(o))
    ensures 0.0 <= Resolve(o).extraProb
  {
  }

  /** The options the page passes for the global background. */
  const SiteOptions := RawOptions(
    Some(0.8), Some(1.0),
    Some(200.0), Some(240.0),
    Some(1800.0), Some(1200.0),
    None, None,
    Some(100.0),
    Some(140.0), Some(320.0),
    Some(1.0), Some(0.7), Some(1.0),
    None,
    Some(Rgb(255, 106, 167)),
    true)

  /** The page's options override everything but the stroke widths and the
      first delay, and give a sane configuration. */
  lemma SiteConfig()
    ensures Resolve(SiteOptions) == Config(0.8, 1.0, 200.0, 240.0, 1800.0, 1200.0, 0.6, 0.6,
                                           100.0, 140.0, 320.0, 1.0, 0.7, 1.0, 300.0,
                                           DefaultColor, true)
    ensures Sane(Resolve(SiteOptions))
  {
  }
}
