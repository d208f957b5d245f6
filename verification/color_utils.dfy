/** The pure colour arithmetic of src/utils.tsx: RGB to HSL and the random
    `#RRGGBB` colour. JavaScript numbers are idealised as reals. */
module ColorUtils {
  import Strings

  /** The `[h, s, l]` triple returned by RGBToHSL. The hue is a whole number
      of degrees because the source rounds it. */
  datatype HSL = HSL(h: int, s: real, l: real)

  function Abs(x: real): (a: real)
    ensures a >= 0.0 && (a == x || a == -x)
  {
    if x < 0.0 then -x else x
  }

  /** `Math.min(a, b, c)`. */
  function Min3(a: real, b: real, c: real): (m: real)
    ensures m <= a && m <= b && m <= c
    ensures m == a || m == b || m == c
  {
    if a <= b && a <= c then a else if b <= c then b else c
  }

  /** `Math.max(a, b, c)`. */
  function Max3(a: real, b: real, c: real): (m: real)
    ensures m >= a && m >= b && m >= c
    ensures m == a || m == b || m == c
  {
    if a >= b && a >= c then a else if b >= c then b else c
  }

  /** `Math.round(x)`: the nearest integer, halves rounded up. */
  function Round(x: real): (n: int)
    ensures n as real - 0.5 <= x < n as real + 0.5
  {
    (x + 0.5).Floor
  }

  /** JavaScript's `x % m` on numbers: the remainder of a division truncated
      toward zero, so it takes the sign of the dividend. */
  function TruncRem(x: real, m: real): real
    requires m != 0.0
  {
    var q := x / m;
    var t := if q >= 0.0 then q.Floor else -((-q).Floor);
    x - m * t as real
  }

  /** `% 6`, the only divisor the source uses, leaves a dividend in (-6, 6)
      as it is. */
  lemma TruncRemOfSmall(x: real)
    requires -6.0 < x < 6.0
    ensures TruncRem(x, 6.0) == x
  {
    var q := x / 6.0;
    if q >= 0.0 {
      assert q.Floor == 0;
    } else {
      assert (-q).Floor == 0;
    }
  }

  /** Multiplying by a positive number keeps the order. */
  lemma MulMonotone(x: real, y: real, d: real)
    requires d > 0.0
    ensures x < y ==> x * d < y * d
  {
    assert (y - x) * d == y * d - x * d;
  }

  /** Dividing and multiplying back by the same non-zero number cancels. */
  lemma MulDivCancel(a: real, d: real)
    requires d != 0.0
    ensures d * (a / d) == a
  {
  }

  /** Dividing by a positive number keeps the quotient between the bounds the
      dividend was between. */
  lemma DivBetween(a: real, d: real, lo: real, hi: real)
    requires d > 0.0 && lo * d <= a <= hi * d
    ensures lo <= a / d <= hi
  {
    var q := a / d;
    MulDivCancel(a, d);
    MulMonotone(hi, q, d);
    MulMonotone(q, lo, d);
  }

  function Delta(r: real, g: real, b: real): (d: real)
    ensures d >= 0.0
  {
    Max3(r, g, b) - Min3(r, g, b)
  }

  /** The hue in sextants before scaling (src/utils.tsx lines 35-41): the
      branch is picked by the largest channel, red tested before green and
      green before blue. On the red branch the `% 6` changes nothing, because
      its argument lies in [-1, 1]. */
  function Sextant(r: real, g: real, b: real): (s: real)
    ensures Delta(r, g, b) == 0.0 ==> s == 0.0
    ensures Delta(r, g, b) != 0.0 && Max3(r, g, b) == r ==>
      s == (g - b) / Delta(r, g, b) && -1.0 <= s <= 1.0
    ensures Delta(r, g, b) != 0.0 && Max3(r, g, b) != r && Max3(r, g, b) == g ==>
      1.0 <= s <= 3.0
    ensures Delta(r, g, b) != 0.0 && Max3(r, g, b) != r && Max3(r, g, b) != g ==>
      3.0 <= s <= 5.0
  {
    var cMax, delta := Max3(r, g, b), Delta(r, g, b);
    if delta == 0.0 then 0.0
    else if cMax == r then
      DivBetween(g - b, delta, -1.0, 1.0);
      TruncRemOfSmall((g - b) / delta);
      TruncRem((g - b) / delta, 6.0)
    else if cMax == g then
      DivBetween(b - r, delta, -1.0, 1.0);
      (b - r) / delta + 2.0
    else
      DivBetween(r - g, delta, -1.0, 1.0);
      (r - g) / delta + 4.0
  }

  /** Rounding a value between two whole numbers stays between them. */
  lemma RoundBetween(x: real, lo: int, hi: int)
    requires lo as real <= x <= hi as real
    ensures lo <= Round(x) <= hi
  {
  }

  /** The hue in whole degrees (lines 43-46): rounded, then a negative hue is
      moved up by one full turn. It lies in [0, 360) for every input, in the
      arc of the channel that wins the max test: red in [0, 60] or [300, 360),
      green in [60, 180], blue in [180, 300]; no difference gives 0. */
  function Hue(r: real, g: real, b: real): (h: int)
    ensures 0 <= h < 360
    ensures Delta(r, g, b) == 0.0 ==> h == 0
    ensures Delta(r, g, b) != 0.0 && Max3(r, g, b) == r ==>
      0 <= h <= 60 || 300 <= h < 360
    ensures Delta(r, g, b) != 0.0 && Max3(r, g, b) != r && Max3(r, g, b) == g ==>
      60 <= h <= 180
    ensures Delta(r, g, b) != 0.0 && Max3(r, g, b) != r && Max3(r, g, b) != g ==>
      180 <= h <= 300
  {
    var degrees := Sextant(r, g, b) * 60.0;
    RoundBetween(degrees, -60, 300);
    var h := Round(degrees);
    if h < 0 then h + 360 else h
  }

  /** Lightness (line 49) lies between the smallest and the largest channel. */
  function Lightness(r: real, g: real, b: real): (l: real)
    ensures Min3(r, g, b) <= l <= Max3(r, g, b)
  {
    (Max3(r, g, b) + Min3(r, g, b)) / 2.0
  }

  predicate InUnit(x: real) {
    0.0 <= x <= 1.0
  }

  /** The divisor of the saturation at line 52. It is at most 1, and for
      channels in [0, 1] at least delta, so it is non-zero whenever delta is. */
  function SatDenominator(r: real, g: real, b: real): (d: real)
    ensures d <= 1.0
    ensures InUnit(r) && InUnit(g) && InUnit(b) ==> Delta(r, g, b) <= d
  {
    1.0 - Abs(2.0 * Lightness(r, g, b) - 1.0)
  }

  /** The inputs on which line 52 divides by a non-zero number. */
  predicate SaturationDefined(r: real, g: real, b: real) {
    Delta(r, g, b) == 0.0 || SatDenominator(r, g, b) != 0.0
  }

  /** Saturation (line 52): zero exactly for a grey input, and otherwise the
      chroma delta divided by the divisor. */
  function Saturation(r: real, g: real, b: real): (s: real)
    requires SaturationDefined(r, g, b)
    ensures s == 0.0 <==> Delta(r, g, b) == 0.0
    ensures s * SatDenominator(r, g, b) == Delta(r, g, b)
  {
    var delta := Delta(r, g, b);
    if delta == 0.0 then 0.0
    else
      MulDivCancel(delta, SatDenominator(r, g, b));
      delta / SatDenominator(r, g, b)
  }

  /** `RGBToHSL(r, g, b)`. */
  function RGBToHSL(r: real, g: real, b: real): (hsl: HSL)
    requires SaturationDefined(r, g, b)
    ensures 0 <= hsl.h < 360
    ensures Min3(r, g, b) <= hsl.l <= Max3(r, g, b)
    ensures hsl.s == 0.0 <==> r == g == b
  {
    HSL(Hue(r, g, b), Saturation(r, g, b), Lightness(r, g, b))
  }

  // ---------------------------------------------------------------------
  // Properties of RGBToHSL

  /** A grey input has hue 0, saturation 0 and lightness equal to its channel. */
  lemma GreyIsAchromatic(v: real)
    ensures SaturationDefined(v, v, v)
    ensures RGBToHSL(v, v, v) == HSL(0, 0.0, v)
  {
  }

  /** Lightness is the midpoint of the extreme channels and stays in [0, 1]
      when the channels do. */
  lemma LightnessBounds(r: real, g: real, b: real)
    requires InUnit(r) && InUnit(g) && InUnit(b)
    ensures Lightness(r, g, b) * 2.0 == Max3(r, g, b) + Min3(r, g, b)
    ensures InUnit(Lightness(r, g, b))
  {
  }

  /** For channels in [0, 1] the division at line 52 is defined and the
      saturation lies in [0, 1]. */
  lemma SaturationBounds(r: real, g: real, b: real)
    requires InUnit(r) && InUnit(g) && InUnit(b)
    ensures SaturationDefined(r, g, b)
    ensures InUnit(Saturation(r, g, b))
  {
    var delta, den := Delta(r, g, b), SatDenominator(r, g, b);
    if delta != 0.0 {
      DivBetween(delta, den, 0.0, 1.0);
    }
  }

  /** The inverse HSL model of CSS Color Module Level 4, section 7, recovers the
      extreme channels from the saturation and lightness: the chroma
      `(1 - |2l - 1|) * s` is delta, and `l` plus or minus half of it gives
      the largest and the smallest channel. */
  lemma HslRecoversExtremes(r: real, g: real, b: real)
    requires SaturationDefined(r, g, b)
    ensures var s, l := Saturation(r, g, b), Lightness(r, g, b);
      var chroma := (1.0 - Abs(2.0 * l - 1.0)) * s;
      chroma == Delta(r, g, b) &&
      l + chroma / 2.0 == Max3(r, g, b) &&
      l - chroma / 2.0 == Min3(r, g, b)
  {
    var s, den := Saturation(r, g, b), SatDenominator(r, g, b);
    assert (1.0 - Abs(2.0 * Lightness(r, g, b) - 1.0)) * s == s * den;
  }

  // ---------------------------------------------------------------------
  // getRandomColor

  /** `Math.random() * 200 + 55` (lines 59-61), given the random value; a value
      of `Math.random()` gives a channel in [55, 255). */
  function ChannelOf(u: real): (v: real)
    ensures 0.0 <= u < 1.0 ==> 55.0 <= v < 255.0
  {
    u * 200.0 + 55.0
  }

  predicate IsHexDigit(c: char) {
    '0' <= c <= '9' || 'a' <= c <= 'f' || 'A' <= c <= 'F'
  }

  predicate IsUpperHexDigit(c: char) {
    '0' <= c <= '9' || 'A' <= c <= 'F'
  }

  predicate AllHexDigits(s: string) {
    forall i :: 0 <= i < |s| ==> IsHexDigit(s[i])
  }

  /** A digit as `Number.prototype.toString(16)` writes it (lower case). */
  function HexDigit(d: nat): (c: char)
    requires d < 16
    ensures IsHexDigit(c)
  {
    "0123456789abcdef"[d]
  }

  /** `n.toString(16)` for a whole number: hex digits with no leading zero,
      one digit below 16, at most two below 256, at least two from 16 on. */
  function NumberToHex(n: nat): (s: string)
    ensures AllHexDigits(s)
    ensures |s| >= 1 && (s[0] == '0' ==> n == 0)
    ensures n < 16 <==> |s| == 1
    ensures n < 256 ==> |s| <= 2
    decreases n
  {
    if n < 16 then [HexDigit(n)] else NumberToHex(n / 16) + [HexDigit(n % 16)]
  }

  /** One channel of the output, `Math.round(v).toString(16).toUpperCase()`
      (line 65): upper-case hex digits denoting `Math.round(v)`, exactly two of
      them when the rounded value is from 16 to 255. */
  function FormatChannel(v: real): (s: string)
    requires v >= 0.0
    ensures AllHexDigits(s) && Strings.HasNoLower(s)
    ensures HexValue(s) == Round(v)
    ensures 15.5 <= v < 255.5 ==> |s| == 2
  {
    var n := Round(v);
    NumberToHexRoundTrip(n);
    ToUpperKeepsHexValue(NumberToHex(n));
    Strings.ToUpper(NumberToHex(n))
  }

  /** `getRandomColor()`, with the three values drawn from `Math.random()`
      passed in. */
  function GetRandomColor(u0: real, u1: real, u2: real): (s: string)
    requires 0.0 <= u0 < 1.0 && 0.0 <= u1 < 1.0 && 0.0 <= u2 < 1.0
    ensures |s| == 7 && s[0] == '#'
    ensures forall i :: 1 <= i < 7 ==> IsUpperHexDigit(s[i])
  {
    "#" + FormatChannel(ChannelOf(u0)) + FormatChannel(ChannelOf(u1)) + FormatChannel(ChannelOf(u2))
  }

  // ---------------------------------------------------------------------
  // Reading hex back: the reference against which the formatting is checked

  function HexDigitValue(c: char): (d: nat)
    requires IsHexDigit(c)
    ensures d < 16
  {
    if '0' <= c <= '9' then c as int - '0' as int
    else if 'a' <= c <= 'f' then c as int - 'a' as int + 10
    else c as int - 'A' as int + 10
  }

  /** The number a string of hex digits denotes, either case. */
  function HexValue(s: string): nat
    requires AllHexDigits(s)
  {
    if s == [] then 0 else HexValue(s[..|s| - 1]) * 16 + HexDigitValue(s[|s| - 1])
  }

  /** `toString(16)` denotes the number it was given. */
  lemma {:induction false} NumberToHexRoundTrip(n: nat)
    ensures HexValue(NumberToHex(n)) == n
    decreases n
  {
    var s := NumberToHex(n);
    if n >= 16 {
      NumberToHexRoundTrip(n / 16);
      assert s[..|s| - 1] == NumberToHex(n / 16);
    }
  }

  /** Upper-casing a hex string keeps it a hex string and keeps its value. */
  lemma {:induction false} ToUpperKeepsHexValue(s: string)
    requires AllHexDigits(s)
    ensures AllHexDigits(Strings.ToUpper(s))
    ensures HexValue(Strings.ToUpper(s)) == HexValue(s)
    decreases |s|
  {
    var u := Strings.ToUpper(s);
    if s != [] {
      ToUpperKeepsHexValue(s[..|s| - 1]);
      assert u[..|u| - 1] == Strings.ToUpper(s[..|s| - 1]);
    }
  }

  /** A channel built from a random value in [0, 1) rounds to a whole number in
      [55, 255]. */
  lemma RandomChannelBounds(u: real)
    requires 0.0 <= u < 1.0
    ensures 55 <= Round(ChannelOf(u)) <= 255
  {
    RoundBetween(ChannelOf(u), 55, 255);
  }

  /** Each two-digit group of `getRandomColor()` denotes exactly the rounded
      channel at its position. */
  lemma RandomColorDenotesChannels(u0: real, u1: real, u2: real)
    requires 0.0 <= u0 < 1.0 && 0.0 <= u1 < 1.0 && 0.0 <= u2 < 1.0
    ensures var s := GetRandomColor(u0, u1, u2);
      AllHexDigits(s[1..]) &&
      HexValue(s[1..3]) == Round(ChannelOf(u0)) &&
      HexValue(s[3..5]) == Round(ChannelOf(u1)) &&
      HexValue(s[5..7]) == Round(ChannelOf(u2))
  {
    var s := GetRandomColor(u0, u1, u2);
    var a, b, c := FormatChannel(ChannelOf(u0)), FormatChannel(ChannelOf(u1)), FormatChannel(ChannelOf(u2));
    var ab := "#" + a + b;
    assert |ab| == 5 && |c| == 2 && s == ab + c;
    assert s[1..3] == a;
    assert s[3..5] == b;
    assert s[5..] == c;
    assert s[5..7] == c;
  }
}
