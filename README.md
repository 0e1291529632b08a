# UK climate co-benefits site: the logic behind the charts

A Dafny model of the small amount of logic in an animated single-page site
that presents a fixed UK climate co-benefits dataset (amounts in millions of
GBP). The model covers four parts:

- **Dataset and formatters** (`metrics.dfy`, module `Metrics`). The constant
  tables are kept as integers in hundredths of a million, so every sum is
  exact. Lemmas prove the relations the tables carry: the seven benefits add
  up to the stated total; the cumulative series is the running total of the
  yearly totals; the local-authority ranking descends strictly; the timeline
  years step by 5 from 2025 to 2050; and every timeline column matches its
  per-type yearly series. `formatMillions` and `formatNumber` are modelled
  with parsers beside them, and round-trip lemmas show what the rendered
  text means.
- **Number rendering** (`decimal.dfy`, module `Decimal`). This is the part of
  the JavaScript runtime that the formatters rely on. `toFixed(1)` becomes
  exact half-up rounding to tenths on the magnitude, with a "-" for every
  negative input. The integer case of `toLocaleString('en-GB')` becomes
  comma grouping by thousands.
- **Timeline scrubber** (`timeline.dfy`, module `Timeline`). The interval
  tick rule is a pure function, with lemmas about runs of ticks. The
  component itself is a class (year, play flag, live interval, mounted)
  whose invariant keeps the year in [2025, 2050] and ties the live interval
  to "mounted and playing". The `find`-based record lookup is modelled as
  written. The line chart's `hasAnimated` flag is a second class.
- **Animated counter** (`benefits.dfy`, module `Benefits`). The progress
  clamp and the ease-out cubic are exact over `real`. The counter is a
  class with one method per animation frame. A method runs the
  self-rescheduling frame chain over frame timestamps that the browser
  supplies.
- **`formatCurrency`** (`utils.dfy`, module `Utils`). Its input is in
  billions and it chooses the unit from the signed value.

Behaviour of the source that the proofs make explicit:

- `currentData` (Timeline.tsx:184) is the first record whose year is at or
  before the scrubber year. The records ascend from 2025, so this is the
  2025 record for every year. The four readouts therefore never change while
  the scrubber moves, and the year line's caption always reads the 2025
  total, "£1.9B".
- `formatMillions` picks its unit from the magnitude. `formatCurrency` and
  the animated counter pick theirs from the signed value. So -70842.52 is
  "£-70.8B" from formatMillions, while the same amount in billions is
  "£-70842.5M" from formatCurrency. The counter's unit rule is written on
  the signed count, and the model follows that code rather than a
  magnitude rule.
- The dataset's yearly `total` is not the sum of the four category columns.
  In 2025 they differ by 0.01.
- The counter's progress has no lower clamp. Its start time is read with
  `performance.now()` inside the effect, while each frame gets the
  timestamp the browser gives the callback. Nothing orders the two, so a
  first frame stamped before the start would show a positive target as a
  negative count (`Benefits.CountBeforeStart`). The counts never pass the
  target and never decrease whatever the start time; only "at least 0"
  needs the frame to be at or after the start.
- The counter's effect returns no cleanup, so its frame chain is never
  cancelled: it runs to the end of the tween even after an unmount, and a
  change of target would start a second chain beside the first. `Animate`
  therefore has no stop other than progress reaching 1. The timeline's
  interval, by contrast, is cleared by its effect's cleanup
  (`TimelineSection.Unmount`).
- The line chart's effect depends on `hasAnimated`, which its first run
  sets. React runs it again straight away, and that run clears the SVG and
  draws every series without the reveal (`Timeline.RenderTwice`).

Inputs that are not values in the source are parameters of the model: frame
timestamps, the time at which the counter comes into view, and whether the
chart is in view. Each interval firing is one call of
`TimelineSection.IntervalTick`.

## Model

| member | source | states |
|---|---|---|
| `Decimal.RoundTenths` | src/data/metrics.ts:186-188 | the whole number of tenths that `toFixed(1)` shows for a non-negative magnitude: within 0.05 of it, a tie going up |
| `Decimal.Fixed1` | src/data/metrics.ts:186-188 | `toFixed(1)`: the text is "[-]digits.digit"; it starts with "-" exactly when the input is negative |
| `Decimal.Fixed1RoundTrip` | src/data/metrics.ts:186-188 | parsing a `toFixed(1)` rendering gives back the input rounded to tenths, within 0.05 of the input |
| `Decimal.ParseNatToString` | src/data/metrics.ts:186-188 | the whole-number part of a rendering reads back as the number written |
| `Decimal.ParseNatCanonical` | src/data/metrics.ts:186-188 | a canonical numeral is exactly the rendering of its value (the converse of the line above) |
| `Decimal.Grouped` | src/data/metrics.ts:191-193 | en-GB rendering of a natural number in comma-separated groups of three digits; what it means is stated by the round trip below |
| `Decimal.ParseGroupedRoundTrip` | src/data/metrics.ts:191-193 | en-GB thousands grouping of a natural number reads back as that number |
| `Decimal.ParseGroupedCanonical` | src/data/metrics.ts:191-193 | a string the grouped parser accepts is exactly the en-GB rendering of its value, so no leading zero group is accepted (the converse of the line above) |
| `Metrics.FormatMillions` | src/data/metrics.ts:184-189 | `formatMillions`: the unit test on the magnitude, dividing the signed value by 1000 for "B"; its meaning is stated by the shape and round-trip lemmas below |
| `Metrics.FormatMillionsShape` | src/data/metrics.ts:184-189 | output is "£", a one-decimal numeral and "B" or "M"; "B" exactly when the absolute value is at least 1000; the numeral is negative exactly when the value is |
| `Metrics.FormatMillionsRoundTrip` | src/data/metrics.ts:184-189 | reading the output back gives the value within 50 (B unit) or 0.05 (M unit) million, the signed value being the one divided |
| `Metrics.FormatMillionsExamples` | src/data/metrics.ts:184-189 | 999 gives "£999.0M", 1000 gives "£1.0B", the Hassle Costs figure -70842.52 gives "£-70.8B" |
| `Metrics.FormatNumber` | src/data/metrics.ts:191-193 | `formatNumber` on an integer: a "-" for a negative value, then the grouped magnitude; read back by the round trip below |
| `Metrics.FormatNumberRoundTrip` | src/data/metrics.ts:191-193 | formatNumber of any integer reads back as that integer (sign and grouping) |
| `Metrics.FormatNumberCanonical` | src/data/metrics.ts:191-193 | a string ParseNumber accepts is formatNumber's rendering of its value (no "-0", no leading zero group): the converse of the line above |
| `Metrics.FormatNumberExample` | src/data/metrics.ts:191-193 | 46426 gives "46,426" |
| `Metrics.BenefitsSumToTotal` | src/data/metrics.ts:13-32 | the seven benefit values sum exactly to totalPositiveBenefits (226844.73) and none is negative |
| `Metrics.CostsAreNegative` | src/data/metrics.ts:24-29 | every cost value is negative |
| `Metrics.PrefixSumsAreSums` | src/data/metrics.ts:134-141 | each running total equals the sum of the prefix it ends |
| `Metrics.CumulativeIsPrefixSum` | src/data/metrics.ts:124-141 | cumulativeData has timelineData's years, and each cumulative figure is the sum of the totals up to that year |
| `Metrics.AdjacentDescendingIsSorted` | src/data/metrics.ts:58-69 | strict descent between neighbours gives strict descent between any two entries |
| `Metrics.TopAuthoritiesRanked` | src/data/metrics.ts:58-69 | the ranking descends strictly, so each of the first five (the slice taken at src/components/sections/Economic.tsx:238) exceeds every later authority |
| `Metrics.TimelineMatchesYearlySeries` | src/data/metrics.ts:72-131 | the six timeline years are 2025 + 5i, ascending; each category column equals the matching yearly series entry |
| `Metrics.TotalIsNotColumnSum` | src/data/metrics.ts:124-125 | the 2025 total exceeds the sum of its four columns by 0.01 |
| `Timeline.TickStep` | src/components/sections/Timeline.tsx:167-173 | the updater one interval firing passes to setYear: below 2050 the next year, still playing; from 2050 back to 2025, stopped |
| `Timeline.Playback` | src/components/sections/Timeline.tsx:164-182 | the state after n firings of a live interval; the firing that stops playback clears the interval, so later ones change nothing |
| `Timeline.TickStepInRange` | src/components/sections/Timeline.tsx:167-173 | a tick keeps an in-range year in [2025, 2050], and stops playback exactly when it wraps back |
| `Timeline.PlaybackAdvances` | src/components/sections/Timeline.tsx:166-174 | ticks that do not pass 2050 only increment the year and keep playing |
| `Timeline.PlaybackSplit` | src/components/sections/Timeline.tsx:166-174 | running ticks on from a state still playing equals running them from that state |
| `Timeline.PlaybackNext` | src/components/sections/Timeline.tsx:164-182 | one more firing applies the tick rule to a run still playing and leaves a stopped run as it is |
| `Timeline.PlaybackInRange` | src/components/sections/Timeline.tsx:160-174 | any number of ticks keeps the year in [2025, 2050] |
| `Timeline.PlaybackReachesEnd` | src/components/sections/Timeline.tsx:160-174 | from 2025, 25 ticks reach 2050 with playback still on |
| `Timeline.PlaybackFullRun` | src/components/sections/Timeline.tsx:160-174 | from 2025, the 26th tick and every later one leave the state at 2025 with playback stopped |
| `Timeline.FindAtOrBefore` | src/components/sections/Timeline.tsx:184 | the index returned is the first record with year at or before the given year; none is returned only when no record qualifies |
| `Timeline.CurrentData` | src/components/sections/Timeline.tsx:184 | `currentData`: the record the find returns, or the first record when it returns none |
| `Timeline.CurrentDataIsFirstRecord` | src/components/sections/Timeline.tsx:184 | currentData is the 2025 record for every year, and from 2025 on the find itself returns index 0 |
| `Timeline.Readouts` | src/components/sections/Timeline.tsx:246-262 | formatMillions of currentData's four category columns, in display order |
| `Timeline.ReadoutsNeverChange` | src/components/sections/Timeline.tsx:246-262 | the four readouts are "£1.6B", "£172.4M", "£117.0M", "£0.2M" for every year |
| `Timeline.IndicatorLabel` | src/components/sections/Timeline.tsx:95-105 | the year line's caption: formatMillions of the total of the record the find returns, and no caption when it returns none |
| `Timeline.IndicatorLabelIsFirstTotal` | src/components/sections/Timeline.tsx:95-105 | wherever the year line is drawn (year > 2025), its caption is "£1.9B", the 2025 total |
| `Timeline.TimelineSection.constructor` | src/components/sections/Timeline.tsx:160-162 | the section starts at 2025, paused, with no interval |
| `Timeline.TimelineSection.Toggle` | src/components/sections/Timeline.tsx:218 | flips isPlaying, keeps the year; the interval is live exactly while playing |
| `Timeline.TimelineSection.SetYear` | src/components/sections/Timeline.tsx:226-231 | the slider sets the year to its in-range value and changes nothing else |
| `Timeline.TimelineSection.IntervalTick` | src/components/sections/Timeline.tsx:164-182 | a live interval applies the tick rule (and is cleared when playback stops); without one nothing changes; the year stays in range |
| `Timeline.TimelineSection.Unmount` | src/components/sections/Timeline.tsx:179-181 | unmounting clears the interval, so no tick is delivered afterwards |
| `Timeline.TimelineSection.RunTicks` | src/components/sections/Timeline.tsx:164-182 | n firings of the interval on the component follow Playback; from 2025, more than 25 firings leave it at 2025, stopped, with the interval cleared |
| `Timeline.TimelineSection.Current` | src/components/sections/Timeline.tsx:184 | the component's currentData is the 2025 record whatever its year |
| `Timeline.LineChart.constructor` | src/components/sections/Timeline.tsx:20 | hasAnimated starts false |
| `Timeline.LineChart.Render` | src/components/sections/Timeline.tsx:22-152 | nothing is drawn out of view; in view all five series are drawn, with a draw-on reveal delayed 200 ms per series only while hasAnimated is false; the year line and caption appear only when year > 2025; hasAnimated becomes and stays true |
| `Timeline.RenderTwice` | src/components/sections/Timeline.tsx:22-152 | the first in-view run draws each series with a reveal delayed 200 ms per series; the re-run that hasAnimated triggers redraws every series with no reveal and the same year line |
| `Benefits.Progress` | src/components/sections/Benefits.tsx:14-19 | progress is at most 1, non-negative for non-negative elapsed time, 1 exactly from 2000 ms on, and elapsed/2000 before that |
| `Benefits.Ease` | src/components/sections/Benefits.tsx:20 | ease-out cubic, 1 - (1 - p)^3, exact over the reals |
| `Benefits.CountAt` | src/components/sections/Benefits.tsx:18-21 | the count set on a frame: target times the eased progress of the elapsed time |
| `Benefits.EaseEndpoints` | src/components/sections/Benefits.tsx:20 | ease(0) = 0 and ease(1) = 1 |
| `Benefits.CubeMonotone` | src/components/sections/Benefits.tsx:20 | the cube in the easing is monotone |
| `Benefits.EaseMonotone` | src/components/sections/Benefits.tsx:20 | the easing never decreases |
| `Benefits.EaseBounds` | src/components/sections/Benefits.tsx:20 | on [0, 1] the easing stays in [0, 1] |
| `Benefits.EaseAtMostOne` | src/components/sections/Benefits.tsx:19-20 | for any progress up to 1, negative included, the easing is at most 1 |
| `Benefits.CountMonotone` | src/components/sections/Benefits.tsx:18-21 | for a non-negative target, the count at a later frame is at least the count at an earlier one and never passes the target, whatever the frames' relation to the start time |
| `Benefits.CountNonNegative` | src/components/sections/Benefits.tsx:18-21 | for a non-negative target, a frame at or after the start shows a count of at least 0 |
| `Benefits.CountBeforeStart` | src/components/sections/Benefits.tsx:15-21 | progress has no lower clamp: a frame stamped before the start time shows a positive target as a negative count |
| `Benefits.CountFinal` | src/components/sections/Benefits.tsx:19-21 | from 2000 ms on the count is exactly the target |
| `Benefits.Display` | src/components/sections/Benefits.tsx:29 | the counter's text: prefix, count / 1000 with "B" when the signed count is at least 1000, else count with "M", suffix |
| `Benefits.DisplayShape` | src/components/sections/Benefits.tsx:29 | the reading ends in "B" exactly when the signed count is at least 1000, so a negative count always shows "M" |
| `Benefits.DisplayAgreesWithFormatMillions` | src/components/sections/Benefits.tsx:29 | after a "£", the reading equals formatMillions exactly when count > -1000 |
| `Benefits.AnimatedCounter.constructor` | src/components/sections/Benefits.tsx:8 | the count starts at 0 with no frame pending |
| `Benefits.AnimatedCounter.EnterView` | src/components/sections/Benefits.tsx:12-16 | the in-view effect runs once: it takes the start time and requests a frame, leaving the count at 0 |
| `Benefits.AnimatedCounter.Frame` | src/components/sections/Benefits.tsx:17-23 | a pending frame sets the count to target * ease(progress) and reschedules exactly while progress < 1; with none pending nothing changes |
| `Benefits.Animate` | src/components/sections/Benefits.tsx:17-24 | each frame run sets the eased count; the chain goes on only while progress < 1; if it ends before the timestamps do, its last frame sets the count to the target; for a non-negative target no count passes the target, every frame at or after the start shows at least 0, and for timestamps that never go back the counts never decrease |
| `Utils.FormatCurrency` | src/lib/utils.ts:8-11 | `formatCurrency`: billions with "B" when the signed value is at least 1, else value * 1000 with "M"; its meaning is stated by the lemmas below |
| `Utils.FormatCurrencyShape` | src/lib/utils.ts:8-11 | output is "£", a one-decimal numeral and "B" or "M"; "B" exactly when value >= 1, so every negative value is in "M" |
| `Utils.FormatCurrencyRoundTrip` | src/lib/utils.ts:8-11 | read back in millions the output is within 50 (B) or 0.05 (M) of value * 1000 |
| `Utils.AgreesWithFormatMillions` | src/lib/utils.ts:8-11 | formatCurrency(v) equals formatMillions(v * 1000) exactly when v > -1 |
| `Utils.FormatCurrencyExamples` | src/lib/utils.ts:8-11 | 226.84473 gives "£226.8B"; -70.84252 gives "£-70842.5M" |

## Left out

- All chart drawing: d3 scales, axes, legends, pie, treemap, force layout and bubbles; hover tooltips; the SVG the line chart draws (only what it draws and whether it animates is modelled). These are foreign library calls over floating-point layout.
- The hero particle field, the page shell's scroll-progress spring and anchor navigation, and the framer-motion reveal transitions. These are nondeterministic or UI-timing code with no contract.
- Binary floating point: all numbers are exact reals. `Decimal.Fixed1` does not reproduce JavaScript's binary rounding or its exponent form for magnitudes of 1e21 and above.
- `Metrics.FormatNumber`: modelled for integers only. What `toLocaleString` does with fraction digits (locale data) is not modelled.
- Wall-clock timing: the 150 ms interval, the 2000 ms clock source and `requestAnimationFrame` scheduling become discrete `IntervalTick` and `Frame(now)` steps with the timestamps as parameters.
- `Timeline.LineChart.Render`: one effect run. When React schedules the re-run is not modelled; `Timeline.RenderTwice` makes the two runs explicit.
- `cn`: a wrapper over clsx and tailwind-merge.
- The colour, icon and description fields of the records; `summaryStats`, `damageTypeData`, `damagePathwayData`, `regionalData`, `healthOutcomes` and `economicData`. These tables are displayed but take part in no computation that is modelled here.
- The geographic map and its per-capita popups: no such code is in the files modelled.
