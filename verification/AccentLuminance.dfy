/** WCAG relative luminance and the bisection that brings a colour to a target
    luminance (`card-style.ts`), over exact reals. */
module AccentLuminance {
  import opened AccentColor

  // ------------------------------------------------------ the transfer curve

  function Power(x: real, n: nat): real {
    if n == 0 then 1.0 else x * Power(x, n - 1)
  }

  /** `gamma[i]` is the linear value of channel `i`. The source's exponent 2.4 is
      12/5, so the curved half is the fifth root of a twelfth power. */
  ghost predicate IsTransferCurve(gamma: seq<real>) {
    && |gamma| == 256
    && forall i :: 0 <= i < 256 ==> IsLinearValue(i, gamma[i])
  }

  ghost predicate IsLinearValue(c: Channel, linear: real) { IsOnCurve(Scaled(c), linear) }

  ghost predicate IsOnCurve(value: real, linear: real) {
    && linear >= 0.0
    && if value <= 0.04045 then linear == value / 12.92
       else Power(linear, 5) == Power((value + 0.055) / 1.055, 12)
  }

  lemma {:induction false} PowerIsIncreasing(x: real, y: real, n: nat)
    requires 0.0 <= x < y && n > 0
    ensures 0.0 <= Power(x, n) < Power(y, n)
  {
    if n > 1 {
      PowerIsIncreasing(x, y, n - 1);
      var a, b := Power(x, n - 1), Power(y, n - 1);
      ProductSign(x, a);
      assert x * a <= x * b by { ProductSign(b - a, x); assert x * (b - a) == x * b - x * a; }
      assert x * b < y * b by { assert (y - x) * b > 0.0; }
    }
  }

  lemma {:induction false} PowerOfOne(n: nat)
    ensures Power(1.0, n) == 1.0
  {
    if n > 0 { PowerOfOne(n - 1); }
  }

  lemma RootOrder(x: real, y: real, n: nat)
    requires x >= 0.0 && y >= 0.0 && n > 0
    ensures Power(x, n) < Power(y, n) ==> x < y
    ensures Power(x, n) == Power(y, n) ==> x == y
  {
    if x < y { PowerIsIncreasing(x, y, n); }
    if y < x { PowerIsIncreasing(y, x, n); }
  }

  /** The straight half ends below the curved half: channel 10 against channel 11. */
  lemma CurveJoinsUpward(low: real, high: real)
    requires IsLinearValue(10, low) && IsLinearValue(11, high)
    ensures low < high
  {
    assert low < 0.0031;
    var x := (Scaled(11) + 0.055) / 1.055;
    assert x > 0.093;
    PowerIsIncreasing(0.093, x, 12);
    assert Power(0.0031, 5) < Power(0.093, 12);
    RootOrder(0.0031, high, 5);
  }

  /** The exact curve meets everything the rest of the module needs of it. */
  lemma CurveIsIncreasing(gamma: seq<real>)
    requires IsTransferCurve(gamma)
    ensures gamma[0] == 0.0 && gamma[255] == 1.0
    ensures forall i, j :: 0 <= i < j < 256 ==> gamma[i] < gamma[j]
  {
    PowerOfOne(5);
    PowerOfOne(12);
    assert IsLinearValue(255, gamma[255]) && IsLinearValue(0, gamma[0]);
    RootOrder(gamma[255], 1.0, 5);
    forall i, j | 0 <= i < j < 256 ensures gamma[i] < gamma[j] {
      assert IsLinearValue(i, gamma[i]) && IsLinearValue(j, gamma[j]);
      assert IsLinearValue(10, gamma[10]) && IsLinearValue(11, gamma[11]);
      if i >= 11 {
        CurvedHalf(i, j, gamma[i], gamma[j]);
      } else if j >= 11 {
        CurveJoinsUpward(gamma[10], gamma[11]);
        if j > 11 { CurvedHalf(11, j, gamma[11], gamma[j]); }
      }
    }
  }

  lemma CurvedHalf(i: Channel, j: Channel, low: real, high: real)
    requires 11 <= i < j && IsLinearValue(i, low) && IsLinearValue(j, high)
    ensures low < high
  {
    PowerIsIncreasing((Scaled(i) + 0.055) / 1.055, (Scaled(j) + 0.055) / 1.055, 12);
    RootOrder(low, high, 5);
  }

  /** The straight half runs on into the curved one: a step of a hundred-thousandth across
      the seam at 0.04045 climbs, by less than a millionth. */
  lemma HalvesMeet(value: real, below: real, above: real)
    requires 0.04045 < value <= 0.04046 && IsOnCurve(0.04045, below) && IsOnCurve(value, above)
    ensures below < above < below + 0.000001
  {
    var seam, x := (0.04045 + 0.055) / 1.055, (value + 0.055) / 1.055;
    assert Power(below, 5) < Power(seam, 12);
    assert Power(0.090484, 12) < Power(0.0031318, 5);
    assert x < 0.090484 && 0.0031318 < below + 0.000001;
    PowerIsIncreasing(seam, x, 12);
    PowerIsIncreasing(x, 0.090484, 12);
    RootOrder(below, above, 5);
    RootOrder(above, 0.0031318, 5);
  }

  // --------------------------------------------------------------- luminance

  /** `colorRelativeLuminance`. */
  function Luminance(gamma: seq<real>, c: Rgb): real
    requires |gamma| == 256
  {
    0.2126 * gamma[c.r] + 0.7152 * gamma[c.g] + 0.0722 * gamma[c.b]
  }

  /** Grey has the luminance of its channels on the curve, and any colour the sum of
      its channels' shares: of full grey's, red has 0.2126, green 0.7152, blue 0.0722. */
  lemma LuminanceIsShared(gamma: seq<real>, c: Rgb, v: Channel)
    requires |gamma| == 256 && gamma[0] == 0.0
    ensures Luminance(gamma, Rgb(v, v, v)) == gamma[v]
    ensures Luminance(gamma, Rgb(v, 0, 0)) == 0.2126 * gamma[v]
    ensures Luminance(gamma, Rgb(0, v, 0)) == 0.7152 * gamma[v]
    ensures Luminance(gamma, Rgb(0, 0, v)) == 0.0722 * gamma[v]
    ensures Luminance(gamma, c)
            == Luminance(gamma, Rgb(c.r, 0, 0)) + Luminance(gamma, Rgb(0, c.g, 0)) + Luminance(gamma, Rgb(0, 0, c.b))
  {
  }

  function LuminanceAt(gamma: seq<real>, hue: real, saturation: Fraction, lightness: Fraction): real
    requires |gamma| == 256
  {
    Luminance(gamma, HslToRgb(hue, saturation, lightness))
  }

  /** At a fixed hue and saturation, luminance climbs from 0 to 1 with lightness. */
  lemma LuminanceIsMonotone(gamma: seq<real>, hue: real, saturation: Fraction, dark: Fraction, light: Fraction)
    requires IsTransferCurve(gamma) && dark <= light
    ensures LuminanceAt(gamma, hue, saturation, dark) <= LuminanceAt(gamma, hue, saturation, light)
  {
    CurveIsIncreasing(gamma);
    LightnessIsMonotone(hue, saturation, dark, light);
  }

  lemma LuminanceOfEnds(gamma: seq<real>, hue: real, saturation: Fraction)
    requires IsTransferCurve(gamma)
    ensures LuminanceAt(gamma, hue, saturation, 0.0) == 0.0
    ensures LuminanceAt(gamma, hue, saturation, 1.0) == 1.0
  {
    CurveIsIncreasing(gamma);
    FlatChannels(hue, saturation, 0.0);
    FlatChannels(hue, saturation, 1.0);
    assert ToChannel(0.0) == 0 && ToChannel(1.0) == 255;
    assert Luminance(gamma, Rgb(0, 0, 0)) == 0.0 && Luminance(gamma, Rgb(255, 255, 255)) == 1.0;
  }

  /** No lightness is black and full lightness is white, whatever the hue. */
  lemma FlatChannels(hue: real, saturation: Fraction, end: Fraction)
    requires end == 0.0 || end == 1.0
    ensures var v := ToChannel(end); HslToRgb(hue, saturation, end) == Rgb(v, v, v)
  {
    TurnInRange(hue);
    var h := Turn(hue);
    assert UpperMix(saturation, end) == end && LowerMix(saturation, end) == end;
    FlatChannel(end, h, THIRD);
    FlatChannel(end, h, 0.0);
    FlatChannel(end, h, -THIRD);
  }

  lemma FlatChannel(level: real, h: real, offset: real)
    requires 0.0 <= h < 1.0 && -THIRD <= offset <= THIRD
    ensures ChannelAt(level, level, h, offset) == level
  {
    ChannelIsWeighted(level, level, h, offset);
  }

  // --------------------------------------------------------------- bisection

  datatype Bracket = Bracket(low: Fraction, high: Fraction)

  /** Luminance as a function of lightness alone. */
  function Profile(gamma: seq<real>, hue: real, saturation: Fraction): Fraction -> real
    requires |gamma| == 256
  {
    (lightness: Fraction) => LuminanceAt(gamma, hue, saturation, lightness)
  }

  /** The bracket after `steps` halvings of [0, 1]. */
  function Bisect(profile: Fraction -> real, target: real, steps: nat): Bracket {
    if steps == 0 then Bracket(0.0, 1.0)
    else
      var b := Bisect(profile, target, steps - 1);
      var middle := (b.low + b.high) / 2.0;
      if profile(middle) < target then Bracket(middle, b.high) else Bracket(b.low, middle)
  }

  const ITERATIONS := 32

  function Distance(x: real, y: real): real { if x >= y then x - y else y - x }

  /** The end of the final bracket that is kept. */
  function NearerEnd(profile: Fraction -> real, target: real, steps: nat): Fraction {
    var b := Bisect(profile, target, steps);
    if Distance(profile(b.low), target) <= Distance(profile(b.high), target) then b.low else b.high
  }

  function WithLuminance(gamma: seq<real>, c: Rgb, target: real): Rgb
    requires |gamma| == 256
  {
    var hsl := RgbToHsl(c);
    HslToRgb(hsl.hue, hsl.saturation, NearerEnd(Profile(gamma, hsl.hue, hsl.saturation), target, ITERATIONS))
  }

  /** The loop and the final choice of `colorWithRelativeLuminance`. */
  method BisectLightness(gamma: seq<real>, hue: real, saturation: Fraction, target: real, iterations: nat)
    returns (found: Rgb)
    requires |gamma| == 256
    ensures found == HslToRgb(hue, saturation, NearerEnd(Profile(gamma, hue, saturation), target, iterations))
  {
    ghost var profile := Profile(gamma, hue, saturation);
    var low: Fraction, high: Fraction := 0.0, 1.0;
    for iteration := 0 to iterations
      invariant Bracket(low, high) == Bisect(profile, target, iteration)
    {
      var middle := (low + high) / 2.0;
      var luminance := LuminanceAt(gamma, hue, saturation, middle);
      assert luminance == profile(middle);
      if luminance < target {
        low := middle;
      } else {
        high := middle;
      }
    }
    var darker := HslToRgb(hue, saturation, low);
    var lighter := HslToRgb(hue, saturation, high);
    assert profile(low) == Luminance(gamma, darker) && profile(high) == Luminance(gamma, lighter);
    if Distance(Luminance(gamma, darker), target) <= Distance(Luminance(gamma, lighter), target) {
      found := darker;
    } else {
      found := lighter;
    }
  }

  /** `colorWithRelativeLuminance`. */
  method ColorWithRelativeLuminance(gamma: seq<real>, c: Rgb, target: real) returns (found: Rgb)
    requires |gamma| == 256
    ensures found == WithLuminance(gamma, c, target)
  {
    var hsl := RgbToHsl(c);
    found := BisectLightness(gamma, hsl.hue, hsl.saturation, target, ITERATIONS);
  }

  /** A luminance profile: from 0 at no lightness up to 1 at full lightness. */
  ghost predicate Climbs(profile: Fraction -> real) {
    && profile(0.0) == 0.0 && profile(1.0) == 1.0
    && forall x: Fraction, y: Fraction :: x <= y ==> profile(x) <= profile(y)
  }

  lemma ProfileClimbs(gamma: seq<real>, hue: real, saturation: Fraction)
    requires IsTransferCurve(gamma)
    ensures Climbs(Profile(gamma, hue, saturation))
  {
    LuminanceOfEnds(gamma, hue, saturation);
    var profile := Profile(gamma, hue, saturation);
    forall x: Fraction, y: Fraction | x <= y ensures profile(x) <= profile(y) {
      LuminanceIsMonotone(gamma, hue, saturation, x, y);
    }
  }

  /** Every halving keeps the target between the two ends of a gap of 2^-steps. */
  lemma {:induction false} BisectBrackets(profile: Fraction -> real, target: real, steps: nat)
    requires Climbs(profile)
    ensures var b := Bisect(profile, target, steps);
            && b.high - b.low == Power(0.5, steps) > 0.0
            && (b.low == 0.0 || profile(b.low) < target)
            && (b.high == 1.0 || target <= profile(b.high))
            && (0.0 < target <= 1.0 ==> profile(b.low) < target <= profile(b.high))
  {
    if steps > 0 {
      BisectBrackets(profile, target, steps - 1);
    }
  }

  /** No lightness outside the final gap does better than the end that is kept. */
  lemma NearerEndIsNearest(profile: Fraction -> real, target: real, steps: nat, lightness: Fraction)
    requires Climbs(profile)
    requires var b := Bisect(profile, target, steps); lightness <= b.low || b.high <= lightness
    ensures Distance(profile(NearerEnd(profile, target, steps)), target) <= Distance(profile(lightness), target)
  {
    var b := Bisect(profile, target, steps);
    BisectBrackets(profile, target, steps);
    if lightness <= b.low {
      assert profile(lightness) <= profile(b.low);
    } else {
      assert profile(b.high) <= profile(lightness);
    }
  }

  /** `kept` ends a gap of 2^-steps, no lightness outside that gap comes closer to
      the target, and the gap straddles any target above 0 and up to 1. */
  ghost predicate IsNearest(profile: Fraction -> real, target: real, steps: nat, kept: Fraction) {
    exists b: Bracket ::
      && b.high - b.low == Power(0.5, steps)
      && (kept == b.low || kept == b.high)
      && (0.0 < target <= 1.0 ==> profile(b.low) < target <= profile(b.high))
      && forall x: Fraction :: x <= b.low || b.high <= x ==>
           Distance(profile(kept), target) <= Distance(profile(x), target)
  }

  lemma NearerEndQualifies(profile: Fraction -> real, target: real, steps: nat)
    requires Climbs(profile)
    ensures IsNearest(profile, target, steps, NearerEnd(profile, target, steps))
  {
    var b, kept := Bisect(profile, target, steps), NearerEnd(profile, target, steps);
    BisectBrackets(profile, target, steps);
    forall x: Fraction | x <= b.low || b.high <= x
      ensures Distance(profile(kept), target) <= Distance(profile(x), target)
    {
      NearerEndIsNearest(profile, target, steps, x);
    }
  }

  /** The colour returned keeps the hue and saturation of the one given and has
      the lightness nearest to the target luminance, up to a gap of 2^-32. */
  lemma WithLuminanceIsNearest(gamma: seq<real>, c: Rgb, target: real)
    requires IsTransferCurve(gamma)
    ensures var hsl := RgbToHsl(c);
            exists kept: Fraction ::
              && WithLuminance(gamma, c, target) == HslToRgb(hsl.hue, hsl.saturation, kept)
              && IsNearest(Profile(gamma, hsl.hue, hsl.saturation), target, 32, kept)
  {
    var hsl := RgbToHsl(c);
    var profile := Profile(gamma, hsl.hue, hsl.saturation);
    ProfileClimbs(gamma, hsl.hue, hsl.saturation);
    NearerEndQualifies(profile, target, ITERATIONS);
    var kept := NearerEnd(profile, target, ITERATIONS);
    assert WithLuminance(gamma, c, target) == HslToRgb(hsl.hue, hsl.saturation, kept);
  }

  lemma {:induction false} HalvesShrink(n: nat, k: nat)
    requires k <= n
    ensures 0.0 < Power(0.5, n) <= Power(0.5, k)
  {
    if n > k {
      HalvesShrink(n - 1, k);
    } else if n > 0 {
      HalvesShrink(n - 1, n - 1);
    }
  }

  lemma TenHalves()
    ensures Power(0.5, 10) < 1.0 / 510.0
  {
    assert Power(0.5, 3) == 0.125;
    assert Power(0.5, 6) == 0.125 * Power(0.5, 3);
    assert Power(0.5, 9) == 0.125 * Power(0.5, 6);
  }

  /** One step apart at most in each channel, the first never the lighter. */
  predicate AreNeighbours(lower: Rgb, upper: Rgb) {
    && lower.r <= upper.r <= lower.r + 1
    && lower.g <= upper.g <= lower.g + 1
    && lower.b <= upper.b <= lower.b + 1
  }

  /** After ten halvings or more the two ends of the bracket are neighbouring colours
      whose luminances stand on either side of the target. */
  lemma BracketIsNeighbours(gamma: seq<real>, hue: real, saturation: Fraction, target: real, steps: nat)
    requires IsTransferCurve(gamma) && 0.0 < target <= 1.0 && steps >= 10
    ensures var b := Bisect(Profile(gamma, hue, saturation), target, steps);
            var lower, upper := HslToRgb(hue, saturation, b.low), HslToRgb(hue, saturation, b.high);
            AreNeighbours(lower, upper) && Luminance(gamma, lower) < target <= Luminance(gamma, upper)
  {
    var profile := Profile(gamma, hue, saturation);
    var b := Bisect(profile, target, steps);
    ProfileClimbs(gamma, hue, saturation);
    BisectBrackets(profile, target, steps);
    HalvesShrink(steps, 10);
    TenHalves();
    CloseLightnessCloseColour(hue, saturation, b.low, b.high);
    assert profile(b.low) == LuminanceAt(gamma, hue, saturation, b.low);
    assert profile(b.high) == LuminanceAt(gamma, hue, saturation, b.high);
  }

  /** So for any target above 0 and up to 1 the colour returned is one of two, at most
      one step apart in each channel, whose luminances stand on either side of it. */
  lemma WithLuminanceIsANeighbour(gamma: seq<real>, c: Rgb, target: real) returns (lower: Rgb, upper: Rgb)
    requires IsTransferCurve(gamma) && 0.0 < target <= 1.0
    ensures AreNeighbours(lower, upper) && Luminance(gamma, lower) < target <= Luminance(gamma, upper)
    ensures WithLuminance(gamma, c, target) == lower || WithLuminance(gamma, c, target) == upper
  {
    var hsl := RgbToHsl(c);
    var b := Bisect(Profile(gamma, hsl.hue, hsl.saturation), target, ITERATIONS);
    lower, upper := HslToRgb(hsl.hue, hsl.saturation, b.low), HslToRgb(hsl.hue, hsl.saturation, b.high);
    BracketIsNeighbours(gamma, hsl.hue, hsl.saturation, target, ITERATIONS);
  }
}
