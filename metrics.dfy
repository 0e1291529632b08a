/** The site's fixed dataset (UK climate co-benefits, in millions of GBP)
    and its two formatters. Every amount is an integer number of hundredths
    of a million, so 129879.19 is written 12987919 and all sums are exact. */
module Metrics {
  import opened Decimal

  /** An amount in hundredths of a million GBP. */
  type Hundredths = int

  /** The same amount in millions, as the source's `number` holds it. */
  function Millions(h: Hundredths): real {
    h as real / 100.0
  }

  datatype Benefit = Benefit(name: string, value: Hundredths)
  datatype Cost = Cost(name: string, value: Hundredths)
  datatype Authority = Authority(name: string, value: Hundredths)
  datatype YearValue = YearValue(year: int, value: Hundredths)
  datatype TimelinePoint = TimelinePoint(
    year: int,
    physicalActivity: Hundredths,
    airQuality: Hundredths,
    noise: Hundredths,
    excessCold: Hundredths,
    total: Hundredths)
  datatype CumulativePoint = CumulativePoint(year: int, cumulative: Hundredths)

  /** `yearlyBenefitsData`: one series per co-benefit type; the source's keys
      physical_activity, air_quality, noise, excess_cold, diet_change and
      dampness become the fields below. */
  datatype YearlyBenefits = YearlyBenefits(
    physicalActivity: seq<YearValue>,
    airQuality: seq<YearValue>,
    noise: seq<YearValue>,
    excessCold: seq<YearValue>,
    dietChange: seq<YearValue>,
    dampness: seq<YearValue>)

  const BenefitsData: seq<Benefit> := [
    Benefit("Physical Activity", 12987919),
    Benefit("Air Quality", 4825941),
    Benefit("Noise Reduction", 3420775),
    Benefit("Excess Cold", 880160),
    Benefit("Diet Change", 505487),
    Benefit("Dampness", 64180),
    Benefit("Excess Heat", 11)
  ]

  const CostsData: seq<Cost> := [
    Cost("Hassle Costs", -7084252),
    Cost("Congestion", -762378),
    Cost("Road Safety", -242988),
    Cost("Road Repairs", -32717)
  ]

  const TotalPositiveBenefits: Hundredths := 22684473

  const TopLocalAuthorities: seq<Authority> := [
    Authority("Birmingham", 231355),
    Authority("Leeds", 177729),
    Authority("Cornwall", 168584),
    Authority("Wiltshire", 128088),
    Authority("Sheffield", 124323),
    Authority("Cheshire East", 120072),
    Authority("Bromley", 116902),
    Authority("Bradford", 115336),
    Authority("City of Edinburgh", 111133),
    Authority("Barnet", 108419)
  ]

  const YearlyBenefitsData: YearlyBenefits := YearlyBenefits(
    [YearValue(2025, 160918), YearValue(2030, 408508), YearValue(2035, 494014),
     YearValue(2040, 564921), YearValue(2045, 620315), YearValue(2050, 660574)],
    [YearValue(2025, 17241), YearValue(2030, 57717), YearValue(2035, 152134),
     YearValue(2040, 249413), YearValue(2045, 309007), YearValue(2050, 308233)],
    [YearValue(2025, 11701), YearValue(2030, 55142), YearValue(2035, 149289),
     YearValue(2040, 180398), YearValue(2045, 182319), YearValue(2050, 170898)],
    [YearValue(2025, 18), YearValue(2030, 10385), YearValue(2035, 16230),
     YearValue(2040, 46965), YearValue(2045, 65632), YearValue(2050, 68269)],
    [YearValue(2025, 0), YearValue(2030, 23512), YearValue(2035, 22042),
     YearValue(2040, 20605), YearValue(2045, 19264), YearValue(2050, 17972)],
    [YearValue(2025, 0), YearValue(2030, 1347), YearValue(2035, 1874),
     YearValue(2040, 3177), YearValue(2045, 3982), YearValue(2050, 4388)])

  const TimelineData: seq<TimelinePoint> := [
    TimelinePoint(2025, 160918, 17241, 11701, 18, 189879),
    TimelinePoint(2030, 408508, 57717, 55142, 10385, 556610),
    TimelinePoint(2035, 494014, 152134, 149289, 16230, 835584),
    TimelinePoint(2040, 564921, 249413, 180398, 46965, 1065481),
    TimelinePoint(2045, 620315, 309007, 182319, 65632, 1200519),
    TimelinePoint(2050, 660574, 308233, 170898, 68269, 1230335)
  ]

  const CumulativeData: seq<CumulativePoint> := [
    CumulativePoint(2025, 189879),
    CumulativePoint(2030, 746489),
    CumulativePoint(2035, 1582073),
    CumulativePoint(2040, 2647554),
    CumulativePoint(2045, 3848073),
    CumulativePoint(2050, 5078408)
  ]

  // ---------------------------------------------------------------------------
  // The formatters

  /** `formatMillions`: the unit is chosen by magnitude, the signed value is
      the one divided, so the sign is kept in both units. */
  function FormatMillions(value: real): string {
    if Abs(value) >= 1000.0 then "£" + Fixed1(value / 1000.0) + "B" else "£" + Fixed1(value) + "M"
  }

  /** `formatNumber` on an integer: en-GB digit grouping, with a leading
      "-" for a negative number. */
  function FormatNumber(value: int): string {
    if value < 0 then "-" + Grouped(-value) else Grouped(value)
  }

  /** Reads a "£<fixed1><unit>" string back into millions. */
  function ParseMillions(s: string): Option<real> {
    if |s| >= 2 && s[0] == '£' && (s[|s| - 1] == 'B' || s[|s| - 1] == 'M') then
      match ParseFixed1(s[1..|s| - 1])
      case Some(t) => Some(if s[|s| - 1] == 'B' then t as real * 100.0 else t as real / 10.0)
      case None => None
    else None
  }

  /** Reads formatNumber's output back: a grouped numeral, or a "-" before
      a non-zero one. */
  function ParseNumber(s: string): Option<int> {
    if |s| > 0 && s[0] == '-' then
      match ParseGrouped(s[1..])
      case Some(n) => if n > 0 then Option<int>.Some(-(n as int)) else None
      case None => None
    else
      match ParseGrouped(s)
      case Some(n) => Some(n)
      case None => None
  }

  /** Every formatMillions output is "£", a one-decimal numeral and one unit
      letter; the unit is "B" exactly when the magnitude is at least 1000,
      and the numeral is negative exactly when the value is. */
  lemma FormatMillionsShape(value: real)
    ensures var s := FormatMillions(value);
      && |s| >= 5 && s[0] == '£'
      && (s[|s| - 1] == 'B' || s[|s| - 1] == 'M')
      && (s[|s| - 1] == 'B' <==> Abs(value) >= 1000.0)
      && (s[1] == '-' <==> value < 0.0)
  {
  }

  /** Reading a formatMillions output back gives the value to within half
      of the last digit shown: 0.05 billion (50 million) in the "B" unit,
      0.05 million in the "M" unit. */
  lemma FormatMillionsRoundTrip(value: real)
    ensures ParseMillions(FormatMillions(value)).Some?
    ensures var v := ParseMillions(FormatMillions(value)).value;
      Abs(v - value) <= if Abs(value) >= 1000.0 then 50.0 else 0.05
  {
    var s := FormatMillions(value);
    var big := Abs(value) >= 1000.0;
    var q := if big then value / 1000.0 else value;
    assert q * (if big then 1000.0 else 1.0) == value;
    UnitRoundTrip(q, big);
    assert s == "£" + Fixed1(q) + (if big then "B" else "M");
  }

  /** "£" + Fixed1(q) + unit reads back as q in that unit, within half of the
      last digit shown. */
  lemma UnitRoundTrip(q: real, billions: bool)
    ensures var s := "£" + Fixed1(q) + (if billions then "B" else "M");
      && ParseMillions(s).Some?
      && Abs(ParseMillions(s).value - q * (if billions then 1000.0 else 1.0))
         <= if billions then 50.0 else 0.05
  {
    if billions {
      BillionsRoundTrip(q);
    } else {
      MillionsRoundTrip(q);
    }
  }

  /** ParseMillions takes a rendering apart at the sign and the unit. */
  lemma ParseMillionsParts(x: string, unit: char)
    requires unit == 'B' || unit == 'M'
    ensures ParseMillions("£" + x + [unit]) ==
      match ParseFixed1(x)
      case Some(t) => Some(if unit == 'B' then t as real * 100.0 else t as real / 10.0)
      case None => None
  {
    var s := "£" + x + [unit];
    assert s[1..|s| - 1] == x;
  }

  /** "£" + Fixed1(q) + "B" reads back as q billion, within 50 million. */
  lemma BillionsRoundTrip(q: real)
    ensures ParseMillions("£" + Fixed1(q) + "B").Some?
    ensures Abs(ParseMillions("£" + Fixed1(q) + "B").value - q * 1000.0) <= 50.0
  {
    ParseMillionsParts(Fixed1(q), 'B');
    Fixed1RoundTrip(q);
    var t := SignedTenths(q) as real;
    assert ParseMillions("£" + Fixed1(q) + "B") == Some(t * 100.0);
    assert Abs(t / 10.0 - q) <= 0.05;
    assert t * 100.0 - q * 1000.0 == (t / 10.0 - q) * 1000.0;
  }

  /** "£" + Fixed1(m) + "M" reads back as m million, within 0.05 million. */
  lemma MillionsRoundTrip(m: real)
    ensures ParseMillions("£" + Fixed1(m) + "M").Some?
    ensures Abs(ParseMillions("£" + Fixed1(m) + "M").value - m) <= 0.05
  {
    ParseMillionsParts(Fixed1(m), 'M');
    Fixed1RoundTrip(m);
    assert ParseMillions("£" + Fixed1(m) + "M") == Some(SignedTenths(m) as real / 10.0);
  }

  lemma FormatMillionsExamples()
    ensures FormatMillions(999.0) == "£999.0M"
    ensures FormatMillions(1000.0) == "£1.0B"
    ensures FormatMillions(Millions(-7084252)) == "£-70.8B"
  {
    assert RoundTenths(999.0) == 9990;
    assert NatToString(999) == "999";
    assert RoundTenths(1.0) == 10;
    assert RoundTenths(70.84252) == 708;
    assert NatToString(70) == "70";
  }

  lemma FormatNumberRoundTrip(value: int)
    ensures ParseNumber(FormatNumber(value)) == Some(value)
  {
    var n: nat := if value < 0 then -value else value;
    ParseGroupedRoundTrip(n);
    GroupedStartsWithDigit(n);
    ParseSigned(Grouped(n), n);
  }

  /** The converse: a string ParseNumber accepts is formatNumber's rendering
      of its value, so each integer has exactly one rendering. */
  lemma FormatNumberCanonical(s: string, value: int)
    requires ParseNumber(s) == Some(value)
    ensures s == FormatNumber(value)
  {
    if |s| > 0 && s[0] == '-' {
      var n := ParseGrouped(s[1..]).value;
      ParseGroupedCanonical(s[1..], n);
      assert s == "-" + s[1..];
    } else {
      ParseGroupedCanonical(s, value);
    }
  }

  /** ParseNumber reads a grouped numeral, with or without a "-" before it. */
  lemma ParseSigned(g: string, n: nat)
    requires |g| > 0 && g[0] != '-' && ParseGrouped(g) == Some(n)
    ensures ParseNumber(g) == Some(n)
    ensures n > 0 ==> ParseNumber("-" + g) == Option<int>.Some(-(n as int))
  {
    assert ("-" + g)[1..] == g;
  }

  lemma {:induction false} GroupedStartsWithDigit(n: nat)
    ensures IsDigit(Grouped(n)[0])
    decreases n
  {
    if n >= 1000 {
      GroupedStartsWithDigit(n / 1000);
    }
  }

  lemma FormatNumberExample()
    ensures FormatNumber(46426) == "46,426"
  {
    assert NatToString(46) == "46";
    assert Pad3(426) == "426";
  }

  // ---------------------------------------------------------------------------
  // Arithmetic relations the constant tables carry

  function Sum(xs: seq<int>): int {
    if xs == [] then 0 else Sum(xs[..|xs| - 1]) + xs[|xs| - 1]
  }

  /** The running totals of xs, computed left to right. */
  function PrefixSums(xs: seq<int>): (r: seq<int>)
    ensures |r| == |xs|
  {
    if xs == [] then [] else var p := PrefixSums(xs[..|xs| - 1]);
      p + [(if p == [] then 0 else p[|p| - 1]) + xs[|xs| - 1]]
  }

  /** Each running total is the sum of the prefix it ends. */
  lemma {:induction false} PrefixSumsAreSums(xs: seq<int>)
    ensures forall i :: 0 <= i < |xs| ==> PrefixSums(xs)[i] == Sum(xs[..i + 1])
    decreases |xs|
  {
    if xs != [] {
      var init := xs[..|xs| - 1];
      PrefixSumsAreSums(init);
      forall i | 0 <= i < |xs|
        ensures PrefixSums(xs)[i] == Sum(xs[..i + 1])
      {
        if i < |xs| - 1 {
          assert xs[..i + 1] == init[..i + 1];
        } else {
          assert xs[..i + 1] == xs;
          assert xs[..i + 1][..i] == init;
          if i > 0 {
            assert init[..i] == init;
          }
        }
      }
    }
  }

  /** Neighbouring elements strictly descend. */
  predicate AdjacentDescending(xs: seq<int>) {
    forall i :: 0 < i < |xs| ==> xs[i - 1] > xs[i]
  }

  predicate StrictlyDescending(xs: seq<int>) {
    forall i, j :: 0 <= i < j < |xs| ==> xs[i] > xs[j]
  }

  /** Strict descent checked between neighbours holds between any two. */
  lemma {:induction false} AdjacentDescendingIsSorted(xs: seq<int>)
    requires AdjacentDescending(xs)
    ensures StrictlyDescending(xs)
    decreases |xs|
  {
    if |xs| > 1 {
      var init := xs[..|xs| - 1];
      AdjacentDescendingIsSorted(init);
      forall i, j | 0 <= i < j < |xs|
        ensures xs[i] > xs[j]
      {
        if j < |xs| - 1 {
          assert xs[i] == init[i] && xs[j] == init[j];
        } else if i < j - 1 {
          assert xs[i] == init[i] && xs[j - 1] == init[j - 1];
        }
      }
    }
  }

  /** One numeric field of every record, in order. */
  function Column<T>(xs: seq<T>, field: T -> int): (r: seq<int>)
    ensures |r| == |xs| && forall i :: 0 <= i < |xs| ==> r[i] == field(xs[i])
  {
    seq(|xs|, i requires 0 <= i < |xs| => field(xs[i]))
  }

  /** The seven benefit values add up exactly to the stated total. */
  lemma BenefitsSumToTotal()
    ensures Sum(Column(BenefitsData, (b: Benefit) => b.value)) == TotalPositiveBenefits
    ensures forall b :: b in BenefitsData ==> b.value >= 0
  {
    var v := Column(BenefitsData, (b: Benefit) => b.value);
    assert v == [12987919, 4825941, 3420775, 880160, 505487, 64180, 11];
    assert Sum(v[..1]) == 12987919 by { assert v[..1][..0] == []; }
    assert Sum(v[..2]) == 17813860 by { assert v[..2][..1] == v[..1]; }
    assert Sum(v[..3]) == 21234635 by { assert v[..3][..2] == v[..2]; }
    assert Sum(v[..4]) == 22114795 by { assert v[..4][..3] == v[..3]; }
    assert Sum(v[..5]) == 22620282 by { assert v[..5][..4] == v[..4]; }
    assert Sum(v[..6]) == 22684462 by { assert v[..6][..5] == v[..5]; }
    assert v[..7][..6] == v[..6] && v[..7] == v;
  }

  lemma CostsAreNegative()
    ensures forall c :: c in CostsData ==> c.value < 0
  {
  }

  /** cumulativeData is the running total of timelineData's totals, year by
      year. */
  lemma CumulativeIsPrefixSum()
    ensures |CumulativeData| == |TimelineData|
    ensures forall i :: 0 <= i < |CumulativeData| ==>
      && CumulativeData[i].year == TimelineData[i].year
      && CumulativeData[i].cumulative == Sum(Column(TimelineData, (p: TimelinePoint) => p.total)[..i + 1])
  {
    var t := Column(TimelineData, (p: TimelinePoint) => p.total);
    assert t == [189879, 556610, 835584, 1065481, 1200519, 1230335];
    assert PrefixSums(t[..1]) == [189879] by { assert t[..1][..0] == []; }
    assert PrefixSums(t[..2]) == [189879, 746489] by { assert t[..2][..1] == t[..1]; }
    assert PrefixSums(t[..3]) == [189879, 746489, 1582073] by { assert t[..3][..2] == t[..2]; }
    assert PrefixSums(t[..4]) == [189879, 746489, 1582073, 2647554] by { assert t[..4][..3] == t[..3]; }
    assert PrefixSums(t[..5]) == [189879, 746489, 1582073, 2647554, 3848073] by { assert t[..5][..4] == t[..4]; }
    assert t[..6][..5] == t[..5] && t[..6] == t;
    var p := PrefixSums(t);
    assert p == [189879, 746489, 1582073, 2647554, 3848073, 5078408];
    PrefixSumsAreSums(t);
    forall i | 0 <= i < |CumulativeData|
      ensures CumulativeData[i].cumulative == Sum(Column(TimelineData, (p: TimelinePoint) => p.total)[..i + 1])
    {
      assert CumulativeData[i].cumulative == p[i];
    }
  }

  /** The authorities are ranked strictly by value, so the first five are
      the five largest: each of them exceeds every authority after them. */
  lemma TopAuthoritiesRanked()
    ensures StrictlyDescending(Column(TopLocalAuthorities, (a: Authority) => a.value))
    ensures |TopLocalAuthorities| >= 5
    ensures forall i, j :: 0 <= i < 5 <= j < |TopLocalAuthorities| ==>
      TopLocalAuthorities[i].value > TopLocalAuthorities[j].value
  {
    var v := Column(TopLocalAuthorities, (a: Authority) => a.value);
    assert v == [231355, 177729, 168584, 128088, 124323, 120072, 116902, 115336, 111133, 108419];
    AdjacentDescendingIsSorted(v);
  }

  /** The timeline's years are 2025, 2030, ..., 2050, and each category
      column of a timeline row is the matching yearlyBenefitsData entry. */
  lemma TimelineMatchesYearlySeries()
    ensures |TimelineData| == 6
    ensures forall i :: 0 <= i < |TimelineData| ==> TimelineData[i].year == 2025 + 5 * i
    ensures forall i :: 0 < i < |TimelineData| ==> TimelineData[i - 1].year < TimelineData[i].year
    ensures var y := YearlyBenefitsData;
      && |y.physicalActivity| == |y.airQuality| == |y.noise| == |y.excessCold| == |TimelineData|
      && forall i :: 0 <= i < |TimelineData| ==>
        && y.physicalActivity[i] == YearValue(TimelineData[i].year, TimelineData[i].physicalActivity)
        && y.airQuality[i] == YearValue(TimelineData[i].year, TimelineData[i].airQuality)
        && y.noise[i] == YearValue(TimelineData[i].year, TimelineData[i].noise)
        && y.excessCold[i] == YearValue(TimelineData[i].year, TimelineData[i].excessCold)
  {
  }

  /** The dataset's totals are not recomputed from the four columns: in 2025
      the columns sum to 1898.78 while the total reads 1898.79. */
  lemma TotalIsNotColumnSum()
    ensures var p := TimelineData[0];
      p.physicalActivity + p.airQuality + p.noise + p.excessCold == p.total - 1
  {
  }
}
