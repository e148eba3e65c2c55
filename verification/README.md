# Ripple background, menu and lightbox of the artist page

This project is a Dafny model of the decision logic in the page script
`script.js`. The script does three things:

- It runs a decorative background of expanding pink rings. A bounded list of
  ripples is fed by a self-rescheduling spawn timer and redrawn on every
  animation frame. The loop pauses while the page is hidden.
- It drives a collapsible navigation menu whose `aria-expanded` attribute
  follows its `open` class.
- It drives an image lightbox that opens on a `data-large` image and closes
  on its backdrop, its close button or Escape.

Timers, animation frames, visibility changes and clicks become events. Each
`Math.random()` value and each clock reading becomes a parameter. Numbers are
`real`.

Modules:

- `Options` (options.dfy): how options are read. `opts.k || d` makes a
  missing value and `0` fall back to the default. `opts.extraProb ?? 0.5`
  keeps an explicit `0`. The module also holds the defaults and the page's
  own option object.
- `Ripples` (ripples.dfy): the ripple record that `spawnRipple` creates, and
  the bounded FIFO list it pushes onto.
- `Spawner` (spawner.dfy): one run of `randomSpawn`. It picks the drop
  count, runs the drop loop, draws the next delay and re-arms only while
  running.
- `Frame` (frame.dfy): the per-frame ring geometry (progress, radius, fade,
  width, clamped stroke alpha) and the `draw` loop.
- `Engine` (engine.dfy): the engine as a state machine over the ripple list,
  `running`, a pending spawn timer and a count of pending frame callbacks.
- `Menu` (menu.dfy) and `Lightbox` (lightbox.dfy): the two UI state
  machines.

Four behaviours of the code that a reader may not expect, all modelled as written:

- Expired ripples are never removed. `draw` only skips them, and they leave
  the list only through FIFO eviction. The list is bounded by `max`, not
  purged.
- The visibility handler requests a new frame every time the page becomes
  visible. It does not check whether a frame callback is already pending. A
  hidden page gets no animation frames, so the callback requested before
  hiding is always still pending when the page is shown again. Every
  hide/show round therefore adds one more draw loop: after `k` rounds,
  `1 + k` loops run (`Engine.HideShowStacksFrames`,
  `Engine.ResumeStacksLoops`). So the model keeps an honest count of
  pending frames rather than a flag.
- The visibility handler never re-arms the spawn timer. A spawn tick that
  finds the page hidden therefore ends spawning for good. After that, only
  pointer presses add ripples (`Engine.SpawningStopsForGood`).
- `ctx.arc` throws on a negative radius. A live ripple gets one when the
  frame's timestamp is well before the ripple's clock reading, or when a
  negative `rMin` (kept by `||`) is given. The throw ends `draw` before it
  requests the next frame, so that draw loop stops (`Frame.DrawFrame`,
  `Engine.EarlyFrameEndsLoop`). A positive list with no ripple from the
  future never throws (`Frame.PositiveNeverThrows`).

## Model

| member | source | states |
|---|---|---|
| `Options.OrDefault` | script.js:118-122 | a missing option and an explicit 0 both yield the default; any other given value is used as is |
| `Options.Nullish` | script.js:127 | only a missing `extraProb` yields the default; an explicit value, 0 included, is kept |
| `Options.OrDefaultVsNullish` | script.js:127 | the `||` and `??` readings differ exactly on an explicit 0 (when the default is nonzero) |
| `Options.OrDefaultNeverZero` | script.js:127 | an `||` read with a nonzero default is never 0, so `extraCount` is never 0 after defaulting |
| `Options.OrDefaultPositive` | script.js:118-120 | a nonnegative given value with a positive default reads as a positive value |
| `Options.Resolve` | script.js:118-150 | after defaulting no `||` option is 0, so no range, bound, count or delay reaches the engine as 0; `extraProb` is 0 exactly when given as 0; the colour is the soft pink when none is given, and a given one is kept |
| `Options.ZeroActsAsDefault` | script.js:118-150 | options all written as 0 act as the defaults (`max` 50, `durMin` 1400, …) except `extraProb`, which stays 0; no options at all gives the defaults |
| `Options.NonNegativeOptionsAreSane` | script.js:118-150 | nonnegative options always give positive ranges, counts and bound, because 0 falls back to a positive default |
| `Options.SiteConfig` | script.js:175-191 | the page's own options resolve to the stated values; stroke widths and first delay keep their defaults |
| `Ripples.Make` | script.js:113-121 | a spawned ripple keeps its position and start time; for draws in [0,1), `dur`, `rMax` and `lw` lie in `[min, min+var)` |
| `Ripples.MakePositive` | script.js:118-120 | under a sane configuration every spawned ripple has positive lifetime, radius and width |
| `Ripples.Spawn` | script.js:115-122 | the list grows by one iff it still fits under `max`, otherwise it keeps its length; the bound is preserved; the new ripple is last and the survivors are the old list minus at most its oldest element, in order |
| `Ripples.SpawnWindow` | script.js:115-122 | one spawn on a list within the bound keeps exactly the newest `min(n+1, floor(max))` elements of old list plus new ripple |
| `Ripples.SpawnAllWindow` | script.js:115-122 | after any number of spawns on a list within the bound, the list is the newest `min(total, floor(max))` ripples of old plus new, in spawn order |
| `Ripples.SpawnAllBounded` | script.js:122 | `|list| <= max` survives any number of spawns |
| `Ripples.FifoScenario` | script.js:115-122 | with `max = 2`, spawning A, B, C leaves [B, C] |
| `Spawner.DropCount` | script.js:127 | the drop count is either `baseDrops` or `baseDrops + extraCount` |
| `Spawner.DropCountExtraIff` | script.js:127 | with a nonzero `extraCount`, the extra drops are added iff the draw is below `extraProb` |
| `Spawner.ExtraProbExtremes` | script.js:127 | `extraProb` 0 never adds extra drops and `extraProb` 1 always does |
| `Spawner.LoopCount` | script.js:128 | the drop loop runs the least natural number of times that is not below the (real) drop count |
| `Spawner.DefaultDrops` | script.js:127-128 | under the defaults a tick emits 2 drops when the draw is below 0.5 and 1 otherwise |
| `Spawner.DropRipple` | script.js:129-131 | a drop lands inside the canvas, `0 <= x < width` and `0 <= y < height`, in canvas-local coordinates, and is an ordinary spawned ripple, positive under a sane configuration |
| `Spawner.Dropped` | script.js:128-132 | the loop creates one ripple per iteration; the `i`-th starts at the `i`-th clock reading, lands inside a canvas of positive size, and is positive under a sane configuration |
| `Spawner.NextDelay` | script.js:133 | the next delay lies in `[spawnMin, spawnMin+spawnVar)` |
| `Spawner.SpawnTick` | script.js:125-135 | a tick re-arms iff running, its delay lies in `[spawnMin, spawnMin+spawnVar)`, and the list bound is preserved |
| `Spawner.SpawnTickWindow` | script.js:128-132 | a tick appends its drops in loop order after the surviving old ripples; the newest `floor(max)` survive |
| `Frame.Progress` | script.js:143 | progress never exceeds 1 and is nonnegative once the ripple has started |
| `Frame.LiveIffYoung` | script.js:143-144 | a ripple is drawn iff less than `dur` has elapsed since its start |
| `Frame.ProgressMonotone` | script.js:143 | progress never decreases as the clock advances |
| `Frame.StrokeAlpha` | script.js:150 | the stroke alpha is `alpha*bright` clamped to at most 1 |
| `Frame.RingBounds` | script.js:145-151 | for progress in [0,1) the radius lies in `[0.1 rMax, rMax)`, the alpha in `(0, base]` and the width in `[lw, 2 lw)` |
| `Frame.RingMonotone` | script.js:145-151 | as progress grows the radius and width never shrink and the alpha never grows |
| `Frame.StrokeFor` | script.js:145-152 | a stroke is centred on its ripple, uses the configured colour and has alpha at most 1 |
| `Frame.StrokeForBounds` | script.js:143-152 | the ring of a live positive ripple keeps its radius, width and alpha bounds, and its glow is a positive fraction of the faded alpha |
| `Frame.Strokes` | script.js:141-155 | a frame strokes exactly as many rings as there are live ripples, each with alpha at most 1 |
| `Frame.StrokesFromLive` | script.js:141-154 | every stroke of a frame is the ring of a ripple that is live at that time; expired ripples contribute nothing |
| `Frame.StrokesAllOrNothing` | script.js:141-144 | a frame where every ripple expired strokes nothing; one where all are live strokes every one |
| `Frame.FirstThrow` | script.js:141-148 | the index of the first live ripple whose ring has a negative radius, or the list length: no earlier ripple throws and the one at the index does |
| `Frame.PositiveNeverThrows` | script.js:143-148 | a list of positive ripples none of which is from the future is drawn to the end without a throw |
| `Frame.DrawFrame` | script.js:138-157 | stopped: no strokes and no frame request; running: the live rings in list order up to the first ring that throws, and a new frame request iff no ring throws; the list is not changed |
| `Frame.FadeScenario` | script.js:143-146 | a 1000 ms ripple of radius 100 starts at radius 10 with full alpha, is at 55 with half alpha at 500 ms, and is not drawn at 1000 ms |
| `Engine.Start` | script.js:89-111 | reduced motion leaves the theme and the engine alone; otherwise the theme switches, and an engine starts, running with an empty list, iff the canvas exists and its 2D context and `ResizeObserver` are available (without them `startRipples` throws before arming anything) |
| `Engine.Step` | script.js:113-163 | no event re-arms a disarmed spawn timer; `running` changes only on a visibility change, to `!hidden`; pending frames grow only when the page becomes visible; frames and visibility changes leave the list unchanged |
| `Engine.FreshInv` | script.js:99-100 | a fresh engine satisfies the invariant |
| `Engine.SpawnAllPositive` | script.js:113-122 | spawning positive ripples keeps the list positive and within the bound |
| `Engine.SpawnTimerInv` | script.js:125-135 | a spawn tick keeps the list within `max` and all its ripples positive |
| `Engine.PointerInv` | script.js:166-170 | a pointer press keeps the list within `max` and all its ripples positive |
| `Engine.StepInv` | script.js:113-170 | every event keeps the invariant |
| `Engine.RunInv` | script.js:113-170 | the invariant holds after any sequence of well-formed events |
| `Engine.StoppedTickDisarms` | script.js:134 | a tick that finds the engine stopped does not re-arm |
| `Engine.DisarmedForever` | script.js:134 | once no spawn timer is pending, none ever is again |
| `Engine.DisarmedListFrozen` | script.js:125-135 | without a spawn timer, only pointer presses change the list |
| `Engine.SpawningStopsForGood` | script.js:134 | once a tick observes `!running`, the timer is never armed again, even after the page becomes visible, and without pointer presses the list stays as it is |
| `Engine.FrameStep` | script.js:138-156 | a frame while stopped, or one whose ring throws, drops the pending count by one; a running frame without a throw keeps it, which is always the case for an engine keeping its invariant and no ripple from the future; no frame touches the list |
| `Engine.DrawCallback` | script.js:138-158 | running one pending `draw` callback is the engine's frame step: stopped, it draws nothing and consumes itself; running, it draws the live rings in list order up to a throwing one and stays pending iff none throws; list, `running` and spawn timer unchanged |
| `Engine.EarlyFrameEndsLoop` | script.js:143-156 | a frame 0.01 ms before a 0.01 ms ripple's clock reading gives progress -1, a throwing ring, and no pending callback afterwards |
| `Engine.VisibilityStep` | script.js:160-163 | a visibility change sets `running = !hidden` and adds one frame request only when the page becomes visible; list and spawn timer unchanged |
| `Engine.HiddenFramesDrain` | script.js:139 | while the page stays hidden the engine stays stopped and pending frames never grow |
| `Engine.HideShowStacksFrames` | script.js:156-163 | each hide/show round adds one pending `draw` callback and changes nothing else; after at least one round the engine runs |
| `Engine.ResumeStacksLoops` | script.js:156-163 | from a fresh engine, `k` hide/show rounds leave `1 + k` callbacks pending, and a frame keeps all of them |
| `Engine.ResumeCanDoubleFrames` | script.js:156-163 | hiding and showing before the pending frame fires leaves two frame callbacks pending, and a frame keeps both alive |
| `Menu.SetExpanded` | script.js:18-21 | `setExpanded(open)` sets the class to `open` and `aria-expanded` to match |
| `Menu.Handle` | script.js:17-34 | without the listeners nothing changes; a mirrored attribute stays mirrored; Escape closes |
| `Menu.ToggleFlips` | script.js:22-25 | with the toggle inside the bar, a toggle click flips `open` and the attribute follows |
| `Menu.ToggleOutsideBarCloses` | script.js:22-29 | with the toggle outside the bar, the document listener closes the menu on the same click |
| `Menu.ClosingCloses` | script.js:26-33 | Escape, an outside click and a link click leave the menu closed with `aria-expanded="false"`, idempotently |
| `Menu.InertEvents` | script.js:27-33 | other keys and clicks inside the bar that are not on the toggle or a link change nothing |
| `Menu.UnwiredInert` | script.js:8-17 | when the hero, mark, toggle or bar is missing, no event sequence changes the menu |
| `Menu.MirrorsForever` | script.js:18-33 | once `aria-expanded` mirrors `open`, or after a first toggle or closing event, it mirrors it forever |
| `Lightbox.OpenBox` | script.js:54-59 | opening sets `src`, the `open` class and `aria-hidden="false"`; with an element missing it is a no-op |
| `Lightbox.CloseBox` | script.js:60-65 | closing clears `src`, removes `open` and sets `aria-hidden="true"`; with an element missing it is a no-op |
| `Lightbox.Handle` | script.js:68-84 | with an element missing nothing changes; a consistent `aria-hidden` stays consistent |
| `Lightbox.CloseAfterOpen` | script.js:54-65 | closing after an open is the same as closing without it |
| `Lightbox.CloseIdempotent` | script.js:60-65 | closing twice is closing once |
| `Lightbox.ReopenSwapsImage` | script.js:54-59 | opening again only swaps the image |
| `Lightbox.OpenerClickOpens` | script.js:69-75 | an opener with a non-empty `data-large` opens that image; an absent or empty attribute does nothing |
| `Lightbox.AbsentInert` | script.js:51-65 | with the overlay or its image missing, no event sequence changes anything |
| `Lightbox.ConsistentForever` | script.js:54-84 | `aria-hidden` stays the opposite of `open` over any event sequence |

Definitions without a row of their own are stated through the members
above: `Ripples.Uniform`, the `min + Math.random() * var` expression
(script.js:118-120, 129-130, 133), through `Ripples.Make`,
`Spawner.DropRipple` and `Spawner.NextDelay`; `Frame.Throws` (script.js:148)
through `Frame.FirstThrow` and `Frame.PositiveNeverThrows`; `Frame.Radius`, `Frame.Fade` and `Frame.Width` (script.js:145, 146,
151) through `Frame.RingBounds`, `Frame.RingMonotone` and
`Frame.FadeScenario`; `Frame.Live` (script.js:143-144) through
`Frame.LiveIffYoung`; `Frame.LiveCount` through `Frame.Strokes` and
`Frame.StrokesAllOrNothing`; `Ripples.SpawnAll` (script.js:128-132) through
`Ripples.SpawnAllWindow`; `Spawner.Drops` (script.js:127-128) through
`Spawner.LoopCount` and `Spawner.DefaultDrops`; `Engine.Run` through
`Engine.RunInv` and the other run lemmas; `Menu.TargetListener` and
`Menu.DocumentClick` (script.js:22-29) through `Menu.Handle`,
`Menu.ToggleFlips`, `Menu.ToggleOutsideBarCloses` and `Menu.ClosingCloses`.
`Engine.HideShow` only builds the alternating hide/show event sequence that
`Engine.HideShowStacksFrames` and `Engine.ResumeStacksLoops` run.

## Left out

- Canvas drawing calls are not modelled: `clearRect`, `arc`, `stroke`, the rgba strings and `shadowBlur = 6`. Only the throw of `arc` on a negative radius is kept. A stroke is a record of its centre, radius, width, alphas and colour.
- `resize`, the device-pixel ratio, `ResizeObserver` and the `fullscreen` option are not modelled (script.js:98, 102-111). They are DOM layout computed with `Math.floor` over floats. Only their failure is kept: a missing 2D context or `ResizeObserver` makes `startRipples` throw, which `Engine.Start` records as no engine.
- `setTimeout`, `requestAnimationFrame` and `performance.now` become events and `now` parameters. The values of `firstDelay` and the drawn delays are computed, but real time is not modelled.
- `Math.random()` becomes explicit parameters in [0,1). The engine's steps take them from each event.
- The `showMark` reveal timing is not modelled (script.js:10-14, 36-46). It is timer and animation-event glue.
- The DOM queries, listener wiring, `getBoundingClientRect` and the click-target tests are not modelled. The target tests are `contains`, `e.target === lightbox` and the close-button class. They become event fields and page flags.
- IEEE doubles are not modelled. Arithmetic is exact over `real`, and JavaScript's treatment of `NaN` as falsy in `||` has no counterpart.
- Frame.Progress: requires a nonzero `dur`. Division by zero gives Infinity or NaN in JavaScript, and that is not modelled. The engine invariant keeps every `dur` positive under a sane configuration.
- Frame.StrokeForBounds: requires `now >= t0`. A frame timestamp can be slightly earlier than the clock reading of a ripple spawned in the same frame. The ring bounds are not stated for the resulting negative progress; the throw it can cause is modelled by `Frame.DrawFrame`.
- Options.NonNegativeOptionsAreSane: positivity is shown only for nonnegative options. A negative option is kept by `||` and can make ranges empty or negative.
- Engine.RunInv: requires every event to carry draws in [0,1) and enough drop draws, and the configuration to be sane.
- Menu.Handle: it is not known whether the toggle and the link panel sit inside the bar, because the markup is not part of this model. These are page parameters.
- The initial `aria-expanded` and `aria-hidden` values come from the markup and are not modelled. The mirroring lemmas therefore start from a mirrored state or from a first closing or toggle event.
