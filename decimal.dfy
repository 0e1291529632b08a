/** Decimal rendering of numbers, as the site's formatters get it from the
    JavaScript runtime: `Number.prototype.toFixed(1)` and the integer case of
    `toLocaleString('en-GB')`. Numbers are exact reals here, so the rounding
    is exact half-up on the magnitude rather than binary floating point.
    Each renderer has a parser beside it, and the lemmas prove that parsing
    a rendering gives back the rounded value. */
module Decimal {

  datatype Option<T> = None | Some(value: T)

  predicate IsDigit(c: char) {
    '0' <= c <= '9'
  }

  predicate AllDigits(s: string) {
    forall i :: 0 <= i < |s| ==> IsDigit(s[i])
  }

  function DigitValue(c: char): (d: nat)
    requires IsDigit(c)
    ensures d < 10
  {
    c as int - '0' as int
  }

  function DigitChar(d: nat): (c: char)
    requires d < 10
    ensures IsDigit(c) && DigitValue(c) == d
  {
    ('0' as int + d) as char
  }

  /** The decimal numeral of n: digits only, most significant first, and no
      leading zero unless n is zero. */
  function NatToString(n: nat): (s: string)
    ensures |s| > 0 && AllDigits(s)
    ensures n > 0 ==> s[0] != '0'
    ensures n < 10 <==> |s| == 1
    decreases n
  {
    if n < 10 then [DigitChar(n)] else NatToString(n / 10) + [DigitChar(n % 10)]
  }

  /** The value of a string of digits, read most significant first. */
  function DigitsValue(s: string): nat
    requires AllDigits(s)
  {
    if s == [] then 0 else DigitsValue(s[..|s| - 1]) * 10 + DigitValue(s[|s| - 1])
  }

  /** Reads a canonical numeral (non-empty, digits only, no leading zero). */
  function ParseNat(s: string): Option<nat> {
    if |s| > 0 && AllDigits(s) && (|s| == 1 || s[0] != '0') then Some(DigitsValue(s)) else None
  }

  lemma {:induction false} ParseNatToString(n: nat)
    ensures ParseNat(NatToString(n)) == Some(n)
  {
    var s := NatToString(n);
    if n >= 10 {
      ParseNatToString(n / 10);
      var t := NatToString(n / 10);
      assert s[..|s| - 1] == t;
      assert DigitsValue(s) == DigitsValue(t) * 10 + n % 10;
    } else {
      assert s[..|s| - 1] == [];
      assert DigitsValue(s) == n;
    }
  }

  /** A canonical numeral is exactly the rendering of its value: NatToString
      and ParseNat are inverse in both directions. */
  lemma {:induction false} ParseNatCanonical(s: string, n: nat)
    requires ParseNat(s) == Some(n)
    ensures s == NatToString(n)
    decreases |s|
  {
    if |s| > 1 {
      var p := s[..|s| - 1];
      assert AllDigits(p);
      assert p[0] == s[0];
      var m := DigitsValue(p);
      DigitsValueLeading(p);
      assert m > 0;
      assert ParseNat(p) == Some(m);
      ParseNatCanonical(p, m);
      assert n == m * 10 + DigitValue(s[|s| - 1]);
      assert n / 10 == m && n % 10 == DigitValue(s[|s| - 1]);
      assert s == p + [s[|s| - 1]];
    }
  }

  /** A digit string with a non-zero leading digit has a non-zero value. */
  lemma {:induction false} DigitsValueLeading(s: string)
    requires AllDigits(s) && |s| > 0 && s[0] != '0'
    ensures DigitsValue(s) > 0
    decreases |s|
  {
    if |s| > 1 {
      var p := s[..|s| - 1];
      assert p[0] == s[0];
      DigitsValueLeading(p);
    }
  }

  // ---------------------------------------------------------------------------
  // toFixed(1)

  function Abs(x: real): (r: real)
    ensures r >= 0.0 && (r == x || r == -x)
  {
    if x < 0.0 then -x else x
  }

  /** The number of tenths nearest to m, a tie going up (m >= 0). */
  function RoundTenths(m: real): (n: nat)
    requires m >= 0.0
    ensures Abs(n as real / 10.0 - m) <= 0.05
    ensures m - n as real / 10.0 < 0.05
  {
    (m * 10.0 + 0.5).Floor
  }

  /** The signed number of tenths that Fixed1(r) shows. */
  function SignedTenths(r: real): int {
    if r < 0.0 then -(RoundTenths(-r) as int) else RoundTenths(r)
  }

  /** A non-negative number of tenths, written "<whole>.<tenth>". */
  function Unsigned(tenths: nat): (s: string)
    ensures |s| >= 3 && s[..|s| - 2] == NatToString(tenths / 10)
    ensures s[|s| - 2] == '.' && s[|s| - 1] == DigitChar(tenths % 10)
  {
    NatToString(tenths / 10) + "." + [DigitChar(tenths % 10)]
  }

  /** `r.toFixed(1)`: a minus sign for every negative r (so -0.01 gives
      "-0.0"), then the magnitude rounded to one decimal place. */
  function Fixed1(r: real): (s: string)
    ensures |s| >= 3 && s[|s| - 2] == '.' && IsDigit(s[|s| - 1])
    ensures s[0] == '-' <==> r < 0.0
    ensures var w := s[(if r < 0.0 then 1 else 0)..|s| - 2]; |w| > 0 && AllDigits(w)
  {
    if r < 0.0 then
      var u := Unsigned(RoundTenths(-r));
      assert ("-" + u)[1..|u| - 1] == u[..|u| - 2];
      "-" + u
    else Unsigned(RoundTenths(r))
  }

  function ParseUnsigned(s: string): Option<nat> {
    if |s| >= 3 && s[|s| - 2] == '.' && IsDigit(s[|s| - 1]) then
      match ParseNat(s[..|s| - 2])
      case Some(w) => Some(w * 10 + DigitValue(s[|s| - 1]))
      case None => None
    else None
  }

  /** Reads "[-]<whole>.<tenth>" back as a signed number of tenths. */
  function ParseFixed1(s: string): Option<int> {
    if |s| > 0 && s[0] == '-' then
      match ParseUnsigned(s[1..])
      case Some(t) => Option<int>.Some(-(t as int))
      case None => None
    else
      match ParseUnsigned(s)
      case Some(t) => Some(t)
      case None => None
  }

  lemma ParseUnsignedRoundTrip(t: nat)
    ensures ParseUnsigned(Unsigned(t)) == Some(t)
  {
    var w := NatToString(t / 10);
    var s := Unsigned(t);
    assert s[..|s| - 2] == w;
    ParseNatToString(t / 10);
  }

  /** What Fixed1 shows is r rounded to tenths, and the parser recovers it. */
  lemma Fixed1RoundTrip(r: real)
    ensures ParseFixed1(Fixed1(r)) == Some(SignedTenths(r))
    ensures Abs(SignedTenths(r) as real / 10.0 - r) <= 0.05
  {
    if r < 0.0 {
      ParseUnsignedRoundTrip(RoundTenths(-r));
      assert Fixed1(r)[1..] == Unsigned(RoundTenths(-r));
    } else {
      ParseUnsignedRoundTrip(RoundTenths(r));
    }
  }

  // ---------------------------------------------------------------------------
  // toLocaleString('en-GB') on integers: thousands separated by commas

  /** The three digits of k < 1000, with leading zeros. */
  function Pad3(k: nat): (s: string)
    requires k < 1000
    ensures |s| == 3 && AllDigits(s)
  {
    [DigitChar(k / 100), DigitChar((k / 10) % 10), DigitChar(k % 10)]
  }

  /** n in groups of three digits separated by ",", the first group 1 to 3
      digits long. */
  function Grouped(n: nat): (s: string)
    ensures |s| > 0
    ensures n >= 1000 ==> |s| > 4
    decreases n
  {
    if n < 1000 then NatToString(n) else Grouped(n / 1000) + "," + Pad3(n % 1000)
  }

  /** Reads a comma-grouped numeral: every group after the first has exactly
      three digits and the first is a canonical numeral of at most three,
      not zero when other groups follow. */
  function ParseGrouped(s: string): Option<nat>
    decreases |s|
  {
    if |s| > 4 && s[|s| - 4] == ',' && AllDigits(s[|s| - 3..]) then
      match ParseGrouped(s[..|s| - 4])
      case Some(v) => if v > 0 then Some(v * 1000 + DigitsValue(s[|s| - 3..])) else None
      case None => None
    else if |s| <= 3 then ParseNat(s)
    else None
  }

  lemma Pad3Value(k: nat)
    requires k < 1000
    ensures DigitsValue(Pad3(k)) == k
  {
    var s := Pad3(k);
    assert s[..2][..1] == s[..1];
    assert DigitsValue(s[..1]) == k / 100 by {
      assert s[..1][..0] == [];
    }
    assert DigitsValue(s[..2]) == (k / 100) * 10 + (k / 10) % 10;
    assert s[..3] == s;
  }

  lemma {:induction false} NatToStringShort(n: nat)
    requires n < 1000
    ensures |NatToString(n)| <= 3
  {
    if n >= 10 {
      NatToStringShort(n / 10);
      if n / 10 < 10 {
        assert |NatToString(n / 10)| == 1;
      } else {
        NatToStringShort(n / 100);
        assert (n / 10) / 10 == n / 100;
        assert n / 100 < 10;
        assert |NatToString(n / 10)| == 2;
      }
    }
  }

  lemma {:induction false} ParseGroupedRoundTrip(n: nat)
    ensures ParseGrouped(Grouped(n)) == Some(n)
    decreases n
  {
    var s := Grouped(n);
    if n < 1000 {
      NatToStringShort(n);
      ParseNatToString(n);
    } else {
      var g := Grouped(n / 1000);
      var p := Pad3(n % 1000);
      assert s == g + "," + p;
      assert s[|s| - 4] == ',';
      assert s[|s| - 3..] == p;
      assert s[..|s| - 4] == g;
      ParseGroupedRoundTrip(n / 1000);
      Pad3Value(n % 1000);
    }
  }

  /** The converse of the round trip: a string ParseGrouped accepts is the
      en-GB rendering of its value, so there is exactly one rendering per
      number. */
  lemma {:induction false} ParseGroupedCanonical(s: string, n: nat)
    requires ParseGrouped(s) == Some(n)
    ensures s == Grouped(n)
    decreases |s|
  {
    if |s| > 4 && s[|s| - 4] == ',' && AllDigits(s[|s| - 3..]) {
      var h, t := s[..|s| - 4], s[|s| - 3..];
      var v := ParseGrouped(h).value;
      ParseGroupedCanonical(h, v);
      Pad3Canonical(t);
      var d := DigitsValue(t);
      assert n == v * 1000 + d && v > 0;
      DivMod1000(v, d);
      assert Grouped(n) == Grouped(v) + "," + Pad3(d);
      assert s == h + "," + t;
    } else {
      ParseNatCanonical(s, n);
      if n >= 1000 {
        NatToStringLong(n);
      }
    }
  }

  /** Three digits are the padded rendering of their value. */
  lemma Pad3Canonical(t: string)
    requires |t| == 3 && AllDigits(t)
    ensures DigitsValue(t) < 1000 && Pad3(DigitsValue(t)) == t
  {
    var a, b, c := DigitValue(t[0]), DigitValue(t[1]), DigitValue(t[2]);
    assert t[..2][..1] == t[..1];
    assert t[..1][..0] == [];
    assert t[..3] == t;
    assert DigitsValue(t[..1]) == a;
    assert DigitsValue(t[..2]) == a * 10 + b;
    assert DigitsValue(t) == (a * 10 + b) * 10 + c;
    ThreeDigits(a, b, c);
    DigitCharValue(t[0]);
    DigitCharValue(t[1]);
    DigitCharValue(t[2]);
    var p := Pad3(DigitsValue(t));
    assert p[0] == t[0] && p[1] == t[1] && p[2] == t[2];
  }

  lemma ThreeDigits(a: nat, b: nat, c: nat)
    requires a < 10 && b < 10 && c < 10
    ensures var k := (a * 10 + b) * 10 + c;
      k < 1000 && k / 100 == a && (k / 10) % 10 == b && k % 10 == c
  {
  }

  lemma DivMod1000(v: nat, d: nat)
    requires d < 1000
    ensures (v * 1000 + d) / 1000 == v && (v * 1000 + d) % 1000 == d
  {
  }

  lemma DigitCharValue(c: char)
    requires IsDigit(c)
    ensures DigitChar(DigitValue(c)) == c
  {
  }

  lemma NatToStringLong(n: nat)
    requires n >= 1000
    ensures |NatToString(n)| >= 4
  {
    assert |NatToString(n)| == |NatToString(n / 10)| + 1;
    assert n / 10 / 10 == n / 100 && n / 100 / 10 == n / 1000;
    assert |NatToString(n / 10)| == |NatToString(n / 100)| + 1;
    assert |NatToString(n / 100)| == |NatToString(n / 1000)| + 1;
  }
}
