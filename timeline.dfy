/** The timeline section: a year scrubber over 2025..2050 with a play/pause
    autoplay that advances the year one step per interval tick, the lookup
    of the record shown for the year, and the line chart's one-time draw-on
    animation. The 150 ms interval is reduced to discrete tick events. */
module Timeline {
  import opened Decimal
  import opened Metrics

  const MinYear: int := 2025
  const MaxYear: int := 2050

  /** What one interval tick leaves behind: the year and whether playback
      goes on. */
  datatype Step = Step(year: int, playing: bool)

  /** The updater the interval callback passes to setYear: below 2050 the
      year advances; from 2050 on it returns to 2025 and playback stops. */
  function TickStep(prev: int): Step {
    if prev >= MaxYear then Step(MinYear, false) else Step(prev + 1, true)
  }

  /** A tick never leaves the scrubber's range, and it stops playback exactly
      when it wraps around. */
  lemma TickStepInRange(prev: int)
    requires MinYear <= prev <= MaxYear
    ensures MinYear <= TickStep(prev).year <= MaxYear
    ensures !TickStep(prev).playing <==> TickStep(prev).year < prev
  {
  }

  /** The state after n ticks delivered while playing, from `year`. The tick
      that stops playback also clears the interval, so the ticks after it
      are never delivered. */
  function Playback(year: int, n: nat): Step
    decreases n
  {
    if n == 0 then Step(year, true)
    else
      var s := TickStep(year);
      if !s.playing then s else Playback(s.year, n - 1)
  }

  /** Ticks that do not reach past 2050 only advance the year. */
  lemma {:induction false} PlaybackAdvances(year: int, k: nat)
    requires year + k <= MaxYear
    ensures Playback(year, k) == Step(year + k, true)
    decreases k
  {
    if k > 0 {
      PlaybackAdvances(year + 1, k - 1);
    }
  }

  /** Running on from a state still playing is running from that state. */
  lemma {:induction false} PlaybackSplit(year: int, a: nat, b: nat)
    requires Playback(year, a).playing
    ensures Playback(year, a + b) == Playback(Playback(year, a).year, b)
    decreases a
  {
    if a > 0 {
      var s := TickStep(year);
      assert s.playing;
      PlaybackSplit(s.year, a - 1, b);
    }
  }

  /** Whatever the number of ticks, an in-range year stays in range. */
  lemma {:induction false} PlaybackInRange(year: int, n: nat)
    requires MinYear <= year <= MaxYear
    ensures MinYear <= Playback(year, n).year <= MaxYear
    decreases n
  {
    if n > 0 && year < MaxYear {
      PlaybackInRange(year + 1, n - 1);
    }
  }

  /** One more tick after k: a run still playing takes the tick rule; a
      stopped run has no interval left, so it stays where it is. */
  lemma {:induction false} PlaybackNext(year: int, k: nat)
    ensures var s := Playback(year, k);
      Playback(year, k + 1) == if s.playing then TickStep(s.year) else s
    decreases k
  {
    if k > 0 && TickStep(year).playing {
      PlaybackNext(TickStep(year).year, k - 1);
    }
  }

  /** Playing from 2025, 25 ticks reach 2050 with playback still on. */
  lemma PlaybackReachesEnd()
    ensures Playback(MinYear, 25) == Step(MaxYear, true)
  {
    PlaybackAdvances(MinYear, 25);
  }

  /** The 26th tick returns to 2025 with playback stopped, where the state
      stays however long one waits. */
  lemma PlaybackFullRun(n: nat)
    requires n > 25
    ensures Playback(MinYear, n) == Step(MinYear, false)
  {
    PlaybackReachesEnd();
    PlaybackSplit(MinYear, 25, n - 25);
  }

  /** `timelineData.find(d => d.year <= year)`, as an index: the first record
      whose year is at or before `year`, if any. */
  function FindAtOrBefore(data: seq<TimelinePoint>, year: int): (r: Option<nat>)
    ensures r.Some? ==> r.value < |data| && data[r.value].year <= year
    ensures r.Some? ==> forall j :: 0 <= j < r.value ==> data[j].year > year
    ensures r.None? ==> forall j :: 0 <= j < |data| ==> data[j].year > year
    decreases |data|
  {
    if data == [] then None
    else if data[0].year <= year then Some(0)
    else match FindAtOrBefore(data[1..], year)
      case Some(k) => Some(k + 1)
      case None => None
  }

  /** `currentData`: the find above, falling back to the first record. */
  function CurrentData(year: int): TimelinePoint {
    match FindAtOrBefore(TimelineData, year)
    case Some(i) => TimelineData[i]
    case None => TimelineData[0]
  }

  /** Because the records ascend from 2025, the first one is at or before
      every year from 2025 on and no record is before an earlier year:
      currentData is the 2025 record whatever the year. */
  lemma CurrentDataIsFirstRecord(year: int)
    ensures CurrentData(year) == TimelineData[0]
    ensures year >= MinYear ==> FindAtOrBefore(TimelineData, year) == Some(0)
  {
    TimelineMatchesYearlySeries();
  }

  /** The four readouts under the chart. */
  function Readouts(year: int): seq<string> {
    var d := CurrentData(year);
    [FormatMillions(Millions(d.physicalActivity)), FormatMillions(Millions(d.airQuality)),
     FormatMillions(Millions(d.noise)), FormatMillions(Millions(d.excessCold))]
  }

  /** The readouts show the 2025 figures for every position of the
      scrubber. */
  lemma ReadoutsNeverChange(year: int)
    ensures Readouts(year) == ["£1.6B", "£172.4M", "£117.0M", "£0.2M"]
  {
    CurrentDataIsFirstRecord(year);
    var d := TimelineData[0];
    assert Millions(d.physicalActivity) == 1609.18 && Millions(d.airQuality) == 172.41;
    assert Millions(d.noise) == 117.01 && Millions(d.excessCold) == 0.18;
    Formatted2025PhysicalActivity();
    Formatted2025AirQuality();
    Formatted2025Noise();
    Formatted2025ExcessCold();
  }

  lemma Formatted2025PhysicalActivity()
    ensures FormatMillions(1609.18) == "£1.6B"
  {
    assert 1609.18 / 1000.0 == 1.60918;
    assert RoundTenths(1.60918) == 16;
  }

  lemma Formatted2025AirQuality()
    ensures FormatMillions(172.41) == "£172.4M"
  {
    assert RoundTenths(172.41) == 1724;
    assert NatToString(172) == "172";
  }

  lemma Formatted2025Noise()
    ensures FormatMillions(117.01) == "£117.0M"
  {
    assert RoundTenths(117.01) == 1170;
    assert NatToString(117) == "117";
  }

  lemma Formatted2025ExcessCold()
    ensures FormatMillions(0.18) == "£0.2M"
  {
    assert RoundTenths(0.18) == 2;
  }

  /** The Timeline component's state: the scrubber year, the play flag, and
      whether the interval held in intervalRef is live. */
  class TimelineSection {
    var year: int
    var isPlaying: bool
    var intervalLive: bool
    var mounted: bool

    /** The year stays on the scrubber's range, and the effect keyed on
        isPlaying keeps exactly one interval live while the mounted
        component is playing and none otherwise. */
    ghost predicate Valid()
      reads this
    {
      && MinYear <= year <= MaxYear
      && (intervalLive <==> mounted && isPlaying)
    }

    constructor ()
      ensures Valid()
      ensures year == MinYear && !isPlaying && mounted
    {
      year := MinYear;
      isPlaying := false;
      intervalLive := false;
      mounted := true;
    }

    /** The play/pause button: flips isPlaying; the effect then starts or
        clears the interval. */
    method Toggle()
      requires Valid() && mounted
      modifies this
      ensures Valid() && mounted
      ensures isPlaying == !old(isPlaying) && year == old(year)
    {
      isPlaying := !isPlaying;
      intervalLive := isPlaying;
    }

    /** The range input's change event. An input with min 2025 and max 2050
        only reports values in that range. */
    method SetYear(value: int)
      requires Valid() && mounted
      requires MinYear <= value <= MaxYear
      modifies this
      ensures Valid() && mounted
      ensures year == value && isPlaying == old(isPlaying) && intervalLive == old(intervalLive)
    {
      year := value;
    }

    /** One firing of the interval. It fires only while an interval is live;
        then the year takes its TickStep and, when that stops playback, the
        effect clears the interval. */
    method IntervalTick()
      requires Valid()
      modifies this
      ensures Valid() && mounted == old(mounted)
      ensures old(intervalLive) ==> Step(year, isPlaying) == TickStep(old(year))
      ensures !old(intervalLive) ==> year == old(year) && isPlaying == old(isPlaying)
    {
      if intervalLive {
        var s := TickStep(year);
        year, isPlaying := s.year, s.playing;
        intervalLive := isPlaying;
      }
    }

    /** The effect's cleanup on unmount clears the interval. */
    method Unmount()
      requires Valid()
      modifies this
      ensures Valid() && !mounted && !intervalLive
      ensures year == old(year) && isPlaying == old(isPlaying)
    {
      mounted := false;
      intervalLive := false;
    }

    /** n firings of the interval started by pressing play: the state
        follows Playback, and from 2025 a run of more than 25 firings ends
        back at 2025 with playback stopped and the interval cleared. */
    method RunTicks(n: nat)
      requires Valid() && intervalLive
      modifies this
      ensures Valid() && mounted
      ensures Step(year, isPlaying) == Playback(old(year), n)
      ensures old(year) == MinYear && n > 25 ==> year == MinYear && !isPlaying && !intervalLive
    {
      ghost var y0 := year;
      var k := 0;
      while k < n
        invariant 0 <= k <= n
        invariant Valid() && mounted
        invariant Step(year, isPlaying) == Playback(y0, k)
      {
        PlaybackNext(y0, k);
        IntervalTick();
        k := k + 1;
      }
      if y0 == MinYear && n > 25 {
        PlaybackFullRun(n);
      }
    }

    /** The record the readouts show: the 2025 one, whatever the year. */
    function Current(): (d: TimelinePoint)
      reads this
      ensures d == TimelineData[0]
    {
      CurrentDataIsFirstRecord(year);
      CurrentData(year)
    }
  }

  // ---------------------------------------------------------------------------
  // The line chart

  /** The chart's five series, in drawing order. */
  const CategoryKeys: seq<string> := ["total", "physicalActivity", "airQuality", "noise", "excessCold"]

  /** A drawn series; `drawOn` holds the stagger delay in ms of its
      stroke-reveal transition when it has one. */
  datatype Line = Line(key: string, drawOn: Option<int>)

  /** The dashed year line and, when the lookup finds a record, its caption. */
  datatype Indicator = Indicator(year: int, caption: Option<string>)

  datatype Chart = Chart(lines: seq<Line>, indicator: Option<Indicator>)

  /** The label drawn beside the year line: formatMillions of the total of
      the record the find returns. */
  function IndicatorLabel(year: int): Option<string> {
    match FindAtOrBefore(TimelineData, year)
    case Some(i) => Some(FormatMillions(Millions(TimelineData[i].total)))
    case None => None
  }

  /** Wherever the year line is drawn, the label reads the 2025 total. */
  lemma IndicatorLabelIsFirstTotal(year: int)
    requires year > MinYear
    ensures IndicatorLabel(year) == Some("£1.9B")
  {
    CurrentDataIsFirstRecord(year);
    assert Millions(189879) == 1898.79;
    assert FormatMillions(1898.79) == "£1.9B" by {
      assert 1898.79 / 1000.0 == 1.89879;
      assert RoundTenths(1.89879) == 19;
    }
  }

  /** LineChart's `hasAnimated` state. */
  class LineChart {
    var hasAnimated: bool

    constructor ()
      ensures !hasAnimated
    {
      hasAnimated := false;
    }

    /** One run of the drawing effect for `year`. Nothing is drawn before the
        chart is in view. Otherwise every series is drawn, with a draw-on
        reveal staggered by 200 ms per series only while hasAnimated is
        false; the year line appears only after 2025; and hasAnimated becomes
        true and stays true. */
    method Render(year: int, inView: bool) returns (chart: Option<Chart>)
      modifies this
      ensures !inView ==> chart == None && hasAnimated == old(hasAnimated)
      ensures inView ==> hasAnimated && chart.Some?
      ensures inView ==> |chart.value.lines| == |CategoryKeys|
      ensures inView ==> forall i :: 0 <= i < |CategoryKeys| ==>
        chart.value.lines[i] == Line(CategoryKeys[i], if old(hasAnimated) then None else Some(200 * i))
      ensures inView ==> (chart.value.indicator.Some? <==> year > MinYear)
      ensures inView && year > MinYear ==> chart.value.indicator == Some(Indicator(year, IndicatorLabel(year)))
    {
      if !inView {
        return None;
      }
      var lines: seq<Line> := [];
      for idx := 0 to |CategoryKeys|
        invariant |lines| == idx
        invariant forall i :: 0 <= i < idx ==>
          lines[i] == Line(CategoryKeys[i], if hasAnimated then None else Some(200 * i))
      {
        lines := lines + [Line(CategoryKeys[idx], if hasAnimated then None else Some(200 * idx))];
      }
      var indicator: Option<Indicator> := None;
      if year > MinYear {
        indicator := Some(Indicator(year, IndicatorLabel(year)));
      }
      if !hasAnimated {
        hasAnimated := true;
      }
      chart := Some(Chart(lines, indicator));
    }
  }

  /** The chart comes into view and its effect runs again at once, because
      it depends on hasAnimated, which the first run set. The second run
      redraws every series without the reveal, so the staggered draw-on of
      the first run is replaced immediately. */
  method RenderTwice(year: int) returns (first: Option<Chart>, second: Option<Chart>)
    ensures first.Some? && second.Some?
    ensures |first.value.lines| == |second.value.lines| == |CategoryKeys|
    ensures forall i :: 0 <= i < |CategoryKeys| ==> first.value.lines[i].drawOn == Some(200 * i)
    ensures forall i :: 0 <= i < |CategoryKeys| ==> second.value.lines[i] == Line(CategoryKeys[i], None)
    ensures first.value.indicator == second.value.indicator
  {
    var chart := new LineChart();
    first := chart.Render(year, true);
    second := chart.Render(year, true);
  }
}
