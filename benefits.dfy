/** The arithmetic of `AnimatedCounter`: a number displayed as it tweens from
    0 to a target over 2000 ms with an ease-out cubic curve, one animation
    frame at a time. Frame timestamps come from the browser and are
    parameters here; the easing is a polynomial and is exact over `real`. */
module Benefits {
  import opened Decimal
  import opened Metrics

  /** The tween's length in milliseconds. */
  const Duration: real := 2000.0

  /** `Math.min(elapsed / duration, 1)`. */
  function Progress(elapsed: real): (p: real)
    ensures p <= 1.0
    ensures elapsed >= 0.0 ==> 0.0 <= p
    ensures p == 1.0 <==> elapsed >= Duration
    ensures p < 1.0 ==> p * Duration == elapsed
  {
    if elapsed / Duration < 1.0 then elapsed / Duration else 1.0
  }

  function Cube(x: real): real {
    x * x * x
  }

  /** Ease-out cubic, `1 - (1 - p)^3`. */
  function Ease(p: real): real {
    1.0 - Cube(1.0 - p)
  }

  /** The value handed to setCount on a frame `elapsed` ms after the start. */
  function CountAt(value: real, elapsed: real): real {
    value * Ease(Progress(elapsed))
  }

  lemma EaseEndpoints()
    ensures Ease(0.0) == 0.0 && Ease(1.0) == 1.0
  {
  }

  lemma CubeMonotone(a: real, b: real)
    requires a <= b
    ensures Cube(a) <= Cube(b)
  {
    var d := b - a;
    assert Cube(b) - Cube(a) == d * (a * a + a * b + b * b);
    assert a * a + a * b + b * b == (a + b / 2.0) * (a + b / 2.0) + 3.0 * (b * b) / 4.0;
    SquareNonNegative(a + b / 2.0);
    SquareNonNegative(b);
    MulNonNegative(d, a * a + a * b + b * b);
  }

  lemma SquareNonNegative(x: real)
    ensures x * x >= 0.0
  {
    if x >= 0.0 {
      MulNonNegative(x, x);
    } else {
      MulNonNegative(-x, -x);
    }
  }

  /** The easing never decreases. */
  lemma EaseMonotone(p: real, q: real)
    requires p <= q
    ensures Ease(p) <= Ease(q)
  {
    CubeMonotone(1.0 - q, 1.0 - p);
  }

  /** On [0, 1] the easing stays in [0, 1]. */
  lemma EaseBounds(p: real)
    requires 0.0 <= p <= 1.0
    ensures 0.0 <= Ease(p) <= 1.0
  {
    CubeMonotone(1.0 - p, 1.0);
    assert Cube(1.0) == 1.0;
    CubeMonotone(0.0, 1.0 - p);
    assert Cube(0.0) == 0.0;
  }

  /** Below 1 the easing is below 1 too: whatever the elapsed time, the
      count never passes a non-negative target. */
  lemma EaseAtMostOne(p: real)
    requires p <= 1.0
    ensures Ease(p) <= 1.0
  {
    CubeMonotone(0.0, 1.0 - p);
    assert Cube(0.0) == 0.0;
  }

  /** For a non-negative target, the count at a later frame is at least the
      count at an earlier one, and never passes the target; this needs no
      relation between the frames and the start time. */
  lemma CountMonotone(value: real, e1: real, e2: real)
    requires value >= 0.0 && e1 <= e2
    ensures CountAt(value, e1) <= CountAt(value, e2) <= value
  {
    var p1, p2 := Progress(e1), Progress(e2);
    if e2 / Duration < 1.0 {
      assert p1 <= p2;
    }
    EaseMonotone(p1, p2);
    EaseAtMostOne(p2);
    Scale(value, Ease(p1), Ease(p2));
    Scale(value, Ease(p2), 1.0);
  }

  /** A frame at or after the start shows a count of at least 0. */
  lemma CountNonNegative(value: real, elapsed: real)
    requires value >= 0.0 && elapsed >= 0.0
    ensures 0.0 <= CountAt(value, elapsed)
  {
    EaseBounds(Progress(elapsed));
    MulNonNegative(value, Ease(Progress(elapsed)));
  }

  /** Progress has no lower clamp: a frame stamped before the start time
      gives a negative progress, and a positive target is shown as a
      negative count on that frame. */
  lemma CountBeforeStart(value: real, elapsed: real)
    requires value > 0.0 && elapsed < 0.0
    ensures CountAt(value, elapsed) < 0.0
  {
    var x := 1.0 - Progress(elapsed);
    assert x > 1.0;
    MulPositive(x, x - 1.0);
    assert x * x > x;
    MulPositive(x * x, x - 1.0);
    assert Cube(x) > 1.0;
    MulPositive(value, -Ease(Progress(elapsed)));
  }

  lemma Scale(v: real, a: real, b: real)
    requires v >= 0.0 && a <= b
    ensures v * a <= v * b
  {
    MulNonNegative(v, b - a);
    assert v * (b - a) == v * b - v * a;
  }

  lemma MulNonNegative(x: real, y: real)
    requires x >= 0.0 && y >= 0.0
    ensures x * y >= 0.0
  {
  }

  lemma MulPositive(x: real, y: real)
    requires x > 0.0 && y > 0.0
    ensures x * y > 0.0
  {
  }

  /** From the full duration on, the count is exactly the target. */
  lemma CountFinal(value: real, elapsed: real)
    requires elapsed >= Duration
    ensures CountAt(value, elapsed) == value
  {
  }

  /** What the counter renders: the unit is chosen from the signed count,
      "B" (count / 1000) from 1000 up and "M" (count) below. */
  function Display(prefix: string, count: real, suffix: string): string {
    prefix + (if count >= 1000.0 then Fixed1(count / 1000.0) else Fixed1(count))
      + (if count >= 1000.0 then "B" else "M") + suffix
  }

  /** The reading ends in "B" exactly when the signed count is at least
      1000, so a negative count is always shown in "M"; its numeral is
      negative exactly when the count is. */
  lemma DisplayShape(count: real)
    ensures var s := Display("", count, "");
      && |s| >= 4
      && (s[|s| - 1] == 'B' || s[|s| - 1] == 'M')
      && (s[|s| - 1] == 'B' <==> count >= 1000.0)
      && (s[0] == '-' <==> count < 0.0)
  {
  }

  lemma DisplayBare(count: real)
    ensures Display("", count, "") ==
      if count >= 1000.0 then Fixed1(count / 1000.0) + "B" else Fixed1(count) + "M"
  {
    var x := if count >= 1000.0 then Fixed1(count / 1000.0) else Fixed1(count);
    var u := if count >= 1000.0 then "B" else "M";
    assert "" + x + u + "" == x + u;
  }

  /** The counter's reading, written after a "£", is formatMillions' exactly
      when count > -1000; below that formatMillions switches to "B" on the
      magnitude while the counter stays in "M". */
  lemma DisplayAgreesWithFormatMillions(count: real)
    ensures "£" + Display("", count, "") == FormatMillions(count) <==> count > -1000.0
  {
    DisplayBare(count);
    var d := "£" + Display("", count, "");
    var m := FormatMillions(count);
    if count >= 1000.0 {
      assert Abs(count) >= 1000.0;
      assert d == "£" + Fixed1(count / 1000.0) + "B";
      assert m == "£" + Fixed1(count / 1000.0) + "B";
    } else if count > -1000.0 {
      assert Abs(count) < 1000.0;
      assert d == "£" + Fixed1(count) + "M";
      assert m == "£" + Fixed1(count) + "M";
    } else {
      assert Abs(count) >= 1000.0;
      assert d[|d| - 1] == 'M' && m[|m| - 1] == 'B';
    }
  }

  /** One AnimatedCounter instance: its `count` state, the start time the
      effect takes when the element comes into view, and whether an
      animation-frame callback is pending. */
  class AnimatedCounter {
    const value: real
    var count: real
    var start: real
    var started: bool
    var scheduled: bool

    /** Nothing has been shown but 0 before the effect has run, and a frame
        is pending only after it has. */
    ghost predicate Valid()
      reads this
    {
      !started ==> count == 0.0 && !scheduled
    }

    constructor (value: real)
      ensures Valid()
      ensures this.value == value && count == 0.0 && !started && !scheduled
    {
      this.value := value;
      count := 0.0;
      start := 0.0;
      started := false;
      scheduled := false;
    }

    /** The in-view effect: it runs once (the observer fires once), takes
        the start time and requests the first frame. */
    method EnterView(now: real)
      requires Valid()
      modifies this
      ensures Valid()
      ensures old(started) ==> count == old(count) && start == old(start) && scheduled == old(scheduled)
      ensures !old(started) ==> start == now && scheduled && count == old(count)
      ensures started
    {
      if !started {
        start := now;
        started := true;
        scheduled := true;
      }
    }

    /** One `animate(currentTime)` callback: a pending callback sets the count
        from the eased progress and requests another frame only while the
        progress is below 1. Without a pending callback nothing runs. */
    method Frame(now: real)
      requires Valid()
      modifies this
      ensures Valid()
      ensures start == old(start) && started == old(started)
      ensures old(scheduled) ==> count == CountAt(value, now - start)
      ensures old(scheduled) ==> (scheduled <==> Progress(now - start) < 1.0)
      ensures !old(scheduled) ==> count == old(count) && !scheduled
    {
      if scheduled {
        var progress := Progress(now - start);
        count := value * Ease(progress);
        scheduled := progress < 1.0;
      }
    }
  }

  /** The frame timestamps never go back. Nothing in the component makes the
      first of them come after the start time it reads, so that is a
      separate condition where it is needed. */
  predicate InOrder(frameTimes: seq<real>) {
    forall i, j :: 0 <= i < j < |frameTimes| ==> frameTimes[i] <= frameTimes[j]
  }

  /** The self-rescheduling frame chain of one counter that comes into view
      at `start`, driven by the browser's frame timestamps. Returns the count
      set on each frame that ran; the chain ends at the first frame whose
      progress reaches 1, and that frame sets the count to the target. */
  method Animate(value: real, start: real, frameTimes: seq<real>) returns (counts: seq<real>)
    ensures |counts| <= |frameTimes|
    ensures forall i :: 0 <= i < |counts| ==> counts[i] == CountAt(value, frameTimes[i] - start)
    ensures forall i :: 0 <= i < |counts| - 1 ==> frameTimes[i] - start < Duration
    ensures |counts| < |frameTimes| ==>
      |counts| > 0 && frameTimes[|counts| - 1] - start >= Duration && counts[|counts| - 1] == value
    ensures value >= 0.0 ==> forall i :: 0 <= i < |counts| ==> counts[i] <= value
    ensures value >= 0.0 ==> forall i :: 0 <= i < |counts| && start <= frameTimes[i] ==> 0.0 <= counts[i]
    ensures value >= 0.0 && InOrder(frameTimes) ==>
      forall i, j :: 0 <= i < j < |counts| ==> counts[i] <= counts[j]
  {
    var c := new AnimatedCounter(value);
    c.EnterView(start);
    counts := [];
    while |counts| < |frameTimes| && c.scheduled
      invariant |counts| <= |frameTimes|
      invariant c.Valid() && c.value == value && c.start == start && c.started
      invariant forall i :: 0 <= i < |counts| ==> counts[i] == CountAt(value, frameTimes[i] - start)
      invariant c.scheduled ==> forall i :: 0 <= i < |counts| ==> frameTimes[i] - start < Duration
      invariant !c.scheduled ==> |counts| > 0 && frameTimes[|counts| - 1] - start >= Duration
      invariant forall i :: 0 <= i < |counts| - 1 ==> frameTimes[i] - start < Duration
      invariant |counts| > 0 ==> c.count == counts[|counts| - 1]
    {
      c.Frame(frameTimes[|counts|]);
      counts := counts + [c.count];
    }
    if |counts| < |frameTimes| {
      CountFinal(value, frameTimes[|counts| - 1] - start);
    }
    if value >= 0.0 {
      forall i | 0 <= i < |counts|
        ensures counts[i] <= value
        ensures start <= frameTimes[i] ==> 0.0 <= counts[i]
      {
        CountMonotone(value, frameTimes[i] - start, frameTimes[i] - start);
        if start <= frameTimes[i] {
          CountNonNegative(value, frameTimes[i] - start);
        }
      }
      if InOrder(frameTimes) {
        forall i, j | 0 <= i < j < |counts|
          ensures counts[i] <= counts[j]
        {
          CountMonotone(value, frameTimes[i] - start, frameTimes[j] - start);
        }
      }
    }
  }
}
