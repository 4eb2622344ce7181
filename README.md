# Career section, concentric circles and decoding text: a Dafny model

This project models the three pieces of logic in a personal portfolio site. Everything else in the site is layout and animation wiring.

- **The career section's panel switcher** (`CareerSection.jsx`). There are two panels, Education and Career. Three state fields change on two events: a click on a panel and the completion of the collapsed panel's circle sweep. After the completion, a delayed timer clears the transition flag; here that timer is an explicit third event. The module holds a pure machine (`CareerSection.Next`) with its invariant. It also holds the class `CareerSection.SectionSwitch`, whose fields are updated in place and whose methods are proved against `Next`. It also states what each panel passes to its circle widget.
- **The concentric-circle motif** (`ConcentricCircles.jsx`). This covers:
  - the closed-form rules for each ring (radius, trail count, direction, speed multiplier) and for each trail (start offset, colours, gradient stops);
  - the nested loop that builds the 39 trails, proved to produce exactly one trail per (ring, trail) pair;
  - the angle and arc-flag logic of `updatePath`;
  - the guards of the effect that builds the animation.

  Numbers are exact reals and `Math.PI` is the exact value of its double. The cos/sin endpoints are not computed: an arc carries its two angles.
- **The decoding text** (`DecodeText.jsx`). One interval tick is the pure function `DecodeText.Step`. The class `DecodeText.DecodeRun` updates the two arrays `characterProgress` and `isCompleted` in place, and its `Tick` method is proved against `Step`. The module also models the placeholder and what the span renders. A separate module, `DecodeLifecycle`, models the effect's lifecycle across activations.

`Math.random()` is an oracle: every call is an input, a real number in [0, 1) (`RandomSource`). Timers are events, not time.

The alphabet of scrambled glyphs on line 5 of DecodeText.jsx has 69 characters, and the model uses those 69, written as its four runs: upper-case letters, lower-case letters, digits and `@#$%^&*`.

The span between a trail's two angles is always exactly 1.5 radians, which is less than pi, so `updatePath` always writes a large-arc flag of 0 (`ConcentricCircles.UpdatePath`).

## Model

| member | source | states |
|---|---|---|
| `CareerSection.Next` | src/components/CareerSection.jsx:10-26 | A click during a transition changes nothing. The active panel changes only on a completion, to the pending panel. Only a click on the other panel starts a transition, and it makes that panel pending. Only the armed timer ends a transition. |
| `CareerSection.NextKeepsInv` | src/components/CareerSection.jsx:10-26 | Every event keeps the invariant. A pending section means a transition is running towards a panel other than the active one. An armed delayed clear means the pending section was already committed. The transition flag is up exactly while one of those two phases lasts. |
| `CareerSection.RunKeepsInv` | src/components/CareerSection.jsx:10-26 | Any sequence of clicks, completions and timer firings keeps that invariant. |
| `CareerSection.InitialIsValid` | src/components/CareerSection.jsx:6-8 | The mount state (Education active, not transitioning, nothing pending) satisfies the invariant. |
| `CareerSection.ClickCompletesSwitch` | src/components/CareerSection.jsx:10-26 | From a quiet state, a click on the other panel, then the completion, then the timer, ends with that panel active and nothing in flight. |
| `CareerSection.ClicksDuringTransitionIgnored` | src/components/CareerSection.jsx:11 | While a transition runs, any number of clicks leave the whole state unchanged; nothing is queued. |
| `CareerSection.ClickStartsSweep` | src/components/CareerSection.jsx:10-15 | After an accepted click, the props `PropsFor` passes (lines 96-97 and 191-192) make the clicked panel's widget active and sweeping. The expanded panel's widget neither sweeps nor is active. |
| `CareerSection.WidgetProps` | src/components/CareerSection.jsx:95-98 | Of the props `PropsFor` passes to the two circle widgets (lines 95-98 and 190-193), in a valid state at most one widget gets `isTransitioning`. The expanded panel's widget gets `isActive=false` and `isTransitioning=false`, so its effect builds nothing. The collapsed panel's widget is always built. |
| `CareerSection.SweepCompletionCommits` | src/components/CareerSection.jsx:17-20 | A completion from the sweeping widget commits that widget's panel, clears the pending section and leaves the transition flag up. |
| `CareerSection.SectionSwitch.constructor` | src/components/CareerSection.jsx:6-8 | Starts with Education active, not transitioning, nothing pending, no timer. |
| `CareerSection.SectionSwitch.HandleSectionClick` | src/components/CareerSection.jsx:10-15 | A click on the active panel, or any click during a transition, changes nothing. Otherwise the transition flag goes up and the clicked panel becomes pending, with the active panel unchanged. |
| `CareerSection.SectionSwitch.HandleTransitionComplete` | src/components/CareerSection.jsx:17-26 | With a pending section: that section becomes active, the pending section is cleared and the delayed clear is scheduled, with the flag still up. Without a pending section: nothing changes. |
| `CareerSection.SectionSwitch.DelayedClear` | src/components/CareerSection.jsx:22-24 | The scheduled timer clears the transition flag and changes nothing else. |
| `ConcentricCircles.Radius` | src/components/ConcentricCircles.jsx:138 | Every radius is at least 20, and no ring of the eight exceeds 125. |
| `ConcentricCircles.RadiusStrictlyIncreasing` | src/components/ConcentricCircles.jsx:138 | Radii strictly increase outward. |
| `ConcentricCircles.RingsFitAndSeparate` | src/components/ConcentricCircles.jsx:42-46 | Each ring lies inside the 400x400 view box centred at 200, including its stroke of width 8. Each ring clears the centre dot of radius 8, and neighbouring strokes never touch. |
| `ConcentricCircles.TrailCount` | src/components/ConcentricCircles.jsx:64-70 | The count is at least 2 and lies between layer+1 and layer+2. It is layer+2 exactly for the three inner rings. |
| `ConcentricCircles.TrailCountMonotone` | src/components/ConcentricCircles.jsx:64-70 | The trail count never decreases outward, and not strictly: rings 2 and 3 both carry 4. |
| `ConcentricCircles.TrailsBeforeAtLeast` | src/components/ConcentricCircles.jsx:137-142 | The rings below ring n carry at least two trails each, so ring n's first trail is at position 2n or later. |
| `ConcentricCircles.TrailsBeforeClosedForm` | src/components/ConcentricCircles.jsx:137-142 | From ring 3 on, the rings below ring n carry n(n+1)/2 + 3 trails. |
| `ConcentricCircles.TotalTrailCount` | src/components/ConcentricCircles.jsx:137-142 | The eight rings carry 39 trails in all. |
| `ConcentricCircles.TrailsBeforeMonotone` | src/components/ConcentricCircles.jsx:137-142 | Every trail of an earlier ring comes before the first trail of a later ring. |
| `ConcentricCircles.TrailsBeforeMonotoneUpTo` | src/components/ConcentricCircles.jsx:137-142 | The position of a ring's first trail never decreases with the ring index. |
| `ConcentricCircles.Direction` | src/components/ConcentricCircles.jsx:73 | The direction is +1 or -1, and it is +1 exactly on even rings. |
| `ConcentricCircles.NeighbouringRingsCounterRotate` | src/components/ConcentricCircles.jsx:73 | Neighbouring rings turn in opposite directions. |
| `ConcentricCircles.SpeedMultiplier` | src/components/ConcentricCircles.jsx:74 | Every one of the eight rings moves faster than 1 and at most 2.6. Ring 0 has 2.6 and ring 7 has 1.2. |
| `ConcentricCircles.SpeedDecreasesOutward` | src/components/ConcentricCircles.jsx:74 | The speed multiplier strictly decreases with the ring index. |
| `ConcentricCircles.StartOffset` | src/components/ConcentricCircles.jsx:156 | For a trail index below the count, the start offset lies in [i/10, i/10 + 1). |
| `ConcentricCircles.NearPool` | src/components/ConcentricCircles.jsx:58 | The near pool has 5 colours. |
| `ConcentricCircles.MiddlePool` | src/components/ConcentricCircles.jsx:59 | The middle pool has 6 colours. |
| `ConcentricCircles.FarPool` | src/components/ConcentricCircles.jsx:60 | The far pool has 4 colours. |
| `ConcentricCircles.RandomColorSet` | src/components/ConcentricCircles.jsx:55-62 | Each of the three colours is a member of its own pool, whatever the rolls in [0, 1). |
| `RandomSource.PickIndex` | src/components/ConcentricCircles.jsx:56 | `floor(r * n)` is a valid index below n for any roll in [0, 1). |
| `RandomSource.ScaledRollBounds` | src/components/ConcentricCircles.jsx:56 | A roll scaled by a positive length stays in [0, n). |
| `ConcentricCircles.GradientStops` | src/components/ConcentricCircles.jsx:148-153 | There are four stops, from offset 0% to 100%. Offsets strictly increase and opacities strictly decrease. The colours go near, middle, far, far. |
| `ConcentricCircles.BuiltTrailIsWellFormed` | src/components/ConcentricCircles.jsx:137-156 | A built trail is a valid (ring, index) pair. On one of the eight rings its radius lies in [20, 125] and its speed in (1, 2.6]. Its start offset lies in its ring's band [i/10, i/10 + 1). It turns one way or the other, and each of its colours lies in its own pool. |
| `ConcentricCircles.LayerTrails` | src/components/ConcentricCircles.jsx:142-156 | The inner loop builds exactly `TrailCount(i)` trails for ring i. |
| `ConcentricCircles.TrailsUpTo` | src/components/ConcentricCircles.jsx:137-156 | The rings below n yield exactly `TrailsBefore(n)` trails. |
| `ConcentricCircles.TrailAt` | src/components/ConcentricCircles.jsx:137-142 | Every valid (ring, index) pair is built, at position `TrailsBefore(ring) + index`, with the colour roll of that position. |
| `ConcentricCircles.TrailPosition` | src/components/ConcentricCircles.jsx:137-142 | Every built trail is a valid (ring, index) pair, and its position is determined by that pair. The loop builds each pair exactly once. |
| `ConcentricCircles.BuiltTrailsArePairs` | src/components/ConcentricCircles.jsx:137-142 | Every trail the loops build for the rings below n carries a ring below n and an index below that ring's trail count, which is the count stored in the trail. |
| `ConcentricCircles.BuildTrails` | src/components/ConcentricCircles.jsx:137-198 | The nested loop builds exactly `TrailsUpTo(8)`: 39 trails, each a valid (ring, index) pair, one colour roll each, in loop order. |
| `ConcentricCircles.HeadAngleSign` | src/components/ConcentricCircles.jsx:170 | For a non-negative offset, progress and speed, the head angle is non-negative when turning the positive way and non-positive when turning the negative way. |
| `ConcentricCircles.HeadAngleFollowsDirection` | src/components/ConcentricCircles.jsx:170 | At a positive speed the head angle grows with progress when the direction is 1 and shrinks when it is -1. |
| `ConcentricCircles.UpdatePath` | src/components/ConcentricCircles.jsx:166-184 | For any progress, the arc keeps the trail's radius and spans exactly 1.5 radians. Its large-arc flag is 0 and its sweep flag 1. During the sweep every trail's head is at `(startOffset + progress*2)*2*PI`, whatever its ring's speed and direction. Otherwise the head is at its ring's `HeadAngle`. |
| `ConcentricCircles.TrailTurnsWithItsRing` | src/components/ConcentricCircles.jsx:170 | Outside the sweep, a trail's head angle grows with the progress when the trail's direction is 1 and shrinks when it is -1. A built trail's direction is its ring's parity (`Direction`). |
| `ConcentricCircles.SweepIgnoresRing` | src/components/ConcentricCircles.jsx:167-171 | During the sweep, two trails with the same start offset are drawn at the same angles, whatever their rings. |
| `ConcentricCircles.RunEffect` | src/components/ConcentricCircles.jsx:101-203 | The motif is built only if the widget is active or sweeping and its svg is mounted. When built, it is driven by the sweep exactly when `isTransitioning` is set (by scroll otherwise). Its completion calls back to the parent only when sweeping. It holds the 39 trails, each first drawn at progress 0. |
| `DecodeText.Start` | src/components/DecodeText.jsx:13-15 | The arrays have the text's length. |
| `DecodeText.StartIsValid` | src/components/DecodeText.jsx:13-15 | The initial arrays satisfy the run invariant, and a non-empty text does not start completed. |
| `DecodeText.IsPassThrough` | src/components/DecodeText.jsx:22 | No pass-through character is a glyph of the alphabet. Every pass-through character except `:` is also kept by the placeholder. |
| `DecodeText.StepAt` | src/components/DecodeText.jsx:21-40 | One position shows its own character or a glyph of the alphabet, and its own character once locked. Its counter moves by 0 or 1. A pass-through or locked position keeps its counter and flag. A position locks only with its counter at 10. |
| `DecodeText.Step` | src/components/DecodeText.jsx:20-41 | A tick displays a string of exactly the text's length and keeps both arrays at that length. |
| `DecodeText.StepKeepsInv` | src/components/DecodeText.jsx:20-41 | A tick keeps the run invariant. Counters stay at most 10. A position is completed exactly when its counter is 10. Pass-through counters stay 0. |
| `DecodeText.StepAtPosition` | src/components/DecodeText.jsx:22-39 | A tick shows a pass-through or completed position as itself, and any other position as a glyph of the alphabet. A counter moves by 0 or 1, never down. A completed position stays completed. |
| `DecodeText.LocksWhenCounterReachesMax` | src/components/DecodeText.jsx:30-37 | An uncompleted position becomes completed on exactly the tick its counter reaches 10. That happens only for a non-pass-through position at 9 whose advance roll is below 0.3. |
| `DecodeText.AllCompleted` | src/components/DecodeText.jsx:44 | `every(Boolean)` holds exactly when no flag in the array is false. |
| `DecodeText.DecodedStepShowsText` | src/components/DecodeText.jsx:21-40 | Once every position that is not pass-through is locked, a tick displays the text itself. |
| `DecodeText.StopMeansFullyDecoded` | src/components/DecodeText.jsx:44-46 | Under the invariant, the stop test holds exactly when the text has no pass-through character and every counter is 10. |
| `DecodeText.Run` | src/components/DecodeText.jsx:18-47 | Any number of ticks keeps the arrays at the text's length. |
| `DecodeText.RunKeepsInv` | src/components/DecodeText.jsx:18-47 | Any number of ticks keeps the run invariant. |
| `DecodeText.RunIsMonotone` | src/components/DecodeText.jsx:26-37 | Over any number of ticks, counters never decrease and a completed position stays completed. |
| `DecodeText.PassThroughNeverStops` | src/components/DecodeText.jsx:44-46 | A text with a pass-through character never passes the stop test, however many ticks run. |
| `DecodeText.DecodeRun.constructor` | src/components/DecodeText.jsx:13-15 | Allocates both arrays fresh at the text's length, all 0 and all false. |
| `DecodeText.DecodeRun.Tick` | src/components/DecodeText.jsx:19-46 | Updates both arrays in place to `Step`'s new arrays and returns `Step`'s display. Keeps the invariant. Returns the stop test of the new arrays, through `AllMarked`. |
| `DecodeText.DecodeRun.AllMarked` | src/components/DecodeText.jsx:44 | Scanning the completion array yields exactly the stop test `every(Boolean)` of the current arrays. |
| `DecodeText.PlaceholderAsWritten` | src/components/DecodeText.jsx:57 | As written, the placeholder is never shorter than the text, and each of its characters comes from the text or from the three-character replacement. |
| `DecodeText.PlaceholderAsWrittenStretches` | src/components/DecodeText.jsx:57 | As written, the placeholder is two characters longer than the text for every hidden character. |
| `DecodeText.PlaceholderAsWrittenCounterexample` | src/components/DecodeText.jsx:57 | As written, the text "A" gets a three-character placeholder. |
| `DecodeText.Placeholder` | src/components/DecodeText.jsx:57 | The intended placeholder has the text's length. |
| `DecodeText.PlaceholderShape` | src/components/DecodeText.jsx:57 | The placeholder keeps whitespace, `.`, `,`, `(` and `)` and replaces every other character, `:` included, by the full block. |
| `DecodeText.Rendered` | src/components/DecodeText.jsx:57 | A non-empty display is shown as it is. Without one, an active span shows a string of the text's length and an inactive span shows nothing. |
| `DecodeLifecycle.NextAsWritten` | src/components/DecodeText.jsx:17-52 | As written, an activation change never ends an interval. Only an armed delay starts one, and only an interval's own stop test ends it. |
| `DecodeLifecycle.Next` | src/components/DecodeText.jsx:17-52 | As intended, any activation change stops the interval. Deactivation leaves nothing pending and nothing displayed. Only an armed delay starts an interval. The display changes only on an activation change or a tick of a live interval. |
| `DecodeLifecycle.MountIsValid` | src/components/DecodeText.jsx:7-16 | The first run of the effect satisfies the lifecycle invariant. |
| `DecodeLifecycle.RunKeepsInv` | src/components/DecodeText.jsx:17-52 | With the intended cleanup, at most one timeout or interval is live over any events. An inactive widget has none and displays nothing. |
| `DecodeLifecycle.RenderedMatchesActivity` | src/components/DecodeText.jsx:8-10 | With the intended cleanup, an inactive span renders nothing and an active one renders a string of the text's length. |
| `DecodeLifecycle.LateTickShowsTextWhileInactive` | src/components/DecodeText.jsx:17-52 | As written: activate, let the delay elapse, deactivate, then a tick draws the frame `DecodeText.Step` computes from the interval's progress. The inactive span renders that frame, as long as the example text "Cox Communications" (18 characters). Once every letter has locked, the frame is the text itself. |
| `DecodeLifecycle.ReactivationDoublesIntervals` | src/components/DecodeText.jsx:17-52 | As written: after the delay, deactivating and reactivating leaves two live intervals. |
| `DecodeLifecycle.LeakedIntervalNeverStops` | src/components/DecodeText.jsx:44-46 | The leaked interval of the example ("Cox Communications") never passes its stop test. |

## Left out

- All GSAP work is left out: timelines, `ScrollTrigger`, tweens, easing, durations, `clearProps`, `killTweensOf`, the `cleanupAnimations` teardown and the reset effect at ConcentricCircles.jsx:16-23. It belongs to a third-party library. `RunEffect` reports only which driver (sweep or scroll) and which completion behaviour the timeline gets.
- SVG DOM construction is left out: `createElementNS`, `innerHTML`, the centre gradient, ids and the formatting of path and gradient strings. The cos/sin endpoint computation of `getPoint` is also left out. An `Arc` carries its two angles instead of its two endpoints.
- Strings are sequences of characters (Unicode scalar values), not of UTF-16 code units. `text.length`, `text.split('')` (DecodeText.jsx:14-15, 20) and the regular expression at line 57, which has no `u` flag, count a character outside the Basic Multilingual Plane as two units. So for such texts the arrays, the scrambling and the placeholder differ from the model. Every text the career section passes is ASCII.
- Floating point is left out. Radii, speeds, offsets and angles are exact reals, so rounding in `i * 0.1 + j * (1 / n)` is not modelled.
- Timing is left out: `setTimeout` delays, the `setInterval` period and the `delay` prop. The delayed clear, the end of the start delay and each tick are discrete events.
- `Math.random()` is an oracle input in [0, 1). No probabilistic claim is made.
- The model does not capture these React behaviours: rendering, batching of state updates, and stale closures of `handleTransitionComplete`. `DecodeRun.Tick` runs the per-character map before the stop test, in the order the code reads. A timer or tick with nothing outstanding is modelled as having no effect.
- `CareerSection.SectionSwitch` keeps an extra field, `timerArmed`, for the outstanding delayed clear. The component itself has no such field.
- The panel content, the `DecodeText` props of each panel and the Tailwind classes are left out. They are layout.
- ProjectCard.jsx, RaindropTransition.jsx, SkillsSection.jsx, App.jsx, PDFViewer.jsx, Footer.jsx and tailwind.config.js are not part of this model. They hold layout, scroll and tween wiring and a DOM query, with no logic of their own.

## Findings

| source | as written | input that shows it | evidently intended | confidence | as-written member | corrected member |
|---|---|---|---|---|---|---|
| src/components/DecodeText.jsx:17-52 | The function that clears the interval is returned from the `setTimeout` callback, which discards it. The effect's cleanup clears only the timeout, so an interval that has started keeps running after deactivation. Every text on the page contains a space, so its stop test never passes. | `isActive` true, wait past the delay, `isActive` false, one more tick: the inactive span shows that tick's 18-character frame. It shows the text itself once every letter has locked, and the interval never ends. | Deactivation stops the interval. An inactive span shows nothing, and at most one interval is live. | high for the code as written; not executed | `DecodeLifecycle.NextAsWritten`, `DecodeLifecycle.LateTickShowsTextWhileInactive` | `DecodeLifecycle.Next`, `DecodeLifecycle.RunKeepsInv` |
| src/components/DecodeText.jsx:57 | The replacement string is the three characters `â–ˆ`, which are the UTF-8 bytes of U+2588 read as Windows-1252. The placeholder therefore grows by two characters per hidden character. | text "A": the placeholder has 3 characters | One full block (U+2588) per hidden character, so the placeholder has the text's length. | medium (the bytes may be an encoding accident in the repository's file); not executed | `DecodeText.PlaceholderAsWritten`, `DecodeText.PlaceholderAsWrittenStretches` | `DecodeText.Placeholder`, `DecodeText.Rendered` |
