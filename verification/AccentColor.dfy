/** The identity-colour arithmetic of `card-style.ts`, over exact reals.

    A colour is a `#rrggbb` string in the source; here it is its three channels,
    and `Hex`/`ParseHex` show the two are the same thing. */
module AccentColor {

  type Channel = c: int | 0 <= c <= 255
  type Fraction = x: real | 0.0 <= x <= 1.0

  datatype Rgb = Rgb(r: Channel, g: Channel, b: Channel)
  datatype Hsl = Hsl(hue: real, saturation: Fraction, lightness: Fraction)

  // ---------------------------------------------------------------- hex text

  const HEX_DIGITS := "0123456789abcdef"

  function HexDigitValue(c: char): int {
    if '0' <= c <= '9' then c as int - '0' as int
    else if 'a' <= c <= 'f' then c as int - 'a' as int + 10
    else if 'A' <= c <= 'F' then c as int - 'A' as int + 10
    else -1
  }

  /** `value.toString(16).padStart(2, "0")` for a channel. */
  function HexByte(c: Channel): string {
    var digits := if c < 16 then [HEX_DIGITS[c]] else [HEX_DIGITS[c / 16], HEX_DIGITS[c % 16]];
    if |digits| < 2 then "0" + digits else digits
  }

  function Hex(c: Rgb): string {
    "#" + HexByte(c.r) + HexByte(c.g) + HexByte(c.b)
  }

  predicate IsHexColor(s: string) {
    |s| == 7 && s[0] == '#' && forall i :: 1 <= i < 7 ==> HexDigitValue(s[i]) >= 0
  }

  function ParseByte(s: string, at: nat): Channel
    requires at + 1 < |s| && HexDigitValue(s[at]) >= 0 && HexDigitValue(s[at + 1]) >= 0
  {
    HexDigitValue(s[at]) * 16 + HexDigitValue(s[at + 1])
  }

  function ParseHex(s: string): Rgb
    requires IsHexColor(s)
  {
    Rgb(ParseByte(s, 1), ParseByte(s, 3), ParseByte(s, 5))
  }

  lemma HexByteDigits(c: Channel)
    ensures HexByte(c) == [HEX_DIGITS[c / 16], HEX_DIGITS[c % 16]]
    ensures HexDigitValue(HEX_DIGITS[c / 16]) == c / 16 && HexDigitValue(HEX_DIGITS[c % 16]) == c % 16
  {
    HexDigitRoundTrip(c / 16);
    HexDigitRoundTrip(c % 16);
  }

  lemma HexDigitRoundTrip(d: int)
    requires 0 <= d < 16
    ensures HexDigitValue(HEX_DIGITS[d]) == d
  {
  }

  /** Writing a colour and reading it back loses nothing, so comparing two hex
      strings the code produced is comparing their channels. */
  lemma HexRoundTrip(c: Rgb)
    ensures IsHexColor(Hex(c)) && ParseHex(Hex(c)) == c
  {
    HexByteDigits(c.r);
    HexByteDigits(c.g);
    HexByteDigits(c.b);
    var s := Hex(c);
    assert s[1] == HEX_DIGITS[c.r / 16] && s[2] == HEX_DIGITS[c.r % 16];
    assert s[3] == HEX_DIGITS[c.g / 16] && s[4] == HEX_DIGITS[c.g % 16];
    assert s[5] == HEX_DIGITS[c.b / 16] && s[6] == HEX_DIGITS[c.b % 16];
  }

  predicate IsDigit(d: char, value: int) { 0 <= value < 16 && d == HEX_DIGITS[value] }

  /** A colour's text is known by its six digits. */
  lemma HexIs(c: Rgb, text: string)
    requires |text| == 7 && text[0] == '#'
    requires IsDigit(text[1], c.r / 16) && IsDigit(text[2], c.r % 16)
    requires IsDigit(text[3], c.g / 16) && IsDigit(text[4], c.g % 16)
    requires IsDigit(text[5], c.b / 16) && IsDigit(text[6], c.b % 16)
    ensures Hex(c) == text
  {
    HexByteDigits(c.r);
    HexByteDigits(c.g);
    HexByteDigits(c.b);
  }

  // ------------------------------------------------------------- RGB and HSL

  function Max(a: real, b: real): real { if a >= b then a else b }

  function Min(a: real, b: real): real { if a <= b then a else b }

  /** `Math.round`: ties go up. */
  function Round(x: real): int { (x + 0.5).Floor }

  function Scaled(c: Channel): Fraction { c as real / 255.0 }

  function Saturation(max: Fraction, min: Fraction): (s: Fraction)
    requires min < max
  {
    var delta := max - min;
    SaturationInRange(max, min);
    if (max + min) / 2.0 > 0.5 then delta / (2.0 - max - min) else delta / (max + min)
  }

  lemma SaturationInRange(max: Fraction, min: Fraction)
    requires min < max
    ensures 0.0 <= (max - min) / (max + min) <= 1.0
    ensures (max + min) / 2.0 > 0.5 ==> 0.0 <= (max - min) / (2.0 - max - min) <= 1.0
  {
    DivideInRange(max - min, max + min);
    if (max + min) / 2.0 > 0.5 { DivideInRange(max - min, 2.0 - max - min); }
  }

  lemma DivideInRange(x: real, d: real)
    requires 0.0 <= x <= d && 0.0 < d
    ensures 0.0 <= x / d <= 1.0
  {
  }

  /** `accentRgbToHsl`. The hue is in degrees. */
  function RgbToHsl(c: Rgb): Hsl {
    var r, g, b := Scaled(c.r), Scaled(c.g), Scaled(c.b);
    var max := Max(r, Max(g, b));
    var min := Min(r, Min(g, b));
    var lightness := (max + min) / 2.0;
    if max == min then Hsl(0.0, 0.0, lightness)
    else
      var delta := max - min;
      var hue :=
        if max == r then ((g - b) / delta + (if g < b then 6.0 else 0.0)) / 6.0
        else if max == g then ((b - r) / delta + 2.0) / 6.0
        else ((r - g) / delta + 4.0) / 6.0;
      Hsl(hue * 360.0, Saturation(max, min), lightness)
  }

  /** JavaScript's `%`: the quotient is truncated toward zero. */
  function Remainder(x: real, m: real): real
    requires m > 0.0
  {
    var quotient := x / m;
    x - m * (if quotient >= 0.0 then quotient.Floor else -((-quotient).Floor)) as real
  }

  /** `(((hue % 360) + 360) % 360) / 360`: the hue as a fraction of a turn. */
  function Turn(hue: real): real {
    Remainder(Remainder(hue, 360.0) + 360.0, 360.0) / 360.0
  }

  function UpperMix(saturation: Fraction, lightness: Fraction): real {
    if lightness < 0.5 then lightness * (1.0 + saturation)
    else lightness + saturation - lightness * saturation
  }

  function LowerMix(saturation: Fraction, lightness: Fraction): real {
    2.0 * lightness - UpperMix(saturation, lightness)
  }

  function WrapOffset(h: real, offset: real): real {
    var t := h + offset;
    var u := if t < 0.0 then t + 1.0 else t;
    if u > 1.0 then u - 1.0 else u
  }

  /** The inner `channel` closure. */
  function ChannelAt(q: real, p: real, h: real, offset: real): real {
    var t := WrapOffset(h, offset);
    if t < 1.0 / 6.0 then p + (q - p) * 6.0 * t
    else if t < 1.0 / 2.0 then q
    else if t < 2.0 / 3.0 then p + (q - p) * (2.0 / 3.0 - t) * 6.0
    else p
  }

  const THIRD := 1.0 / 3.0

  function HslChannel(saturation: Fraction, lightness: Fraction, h: real, offset: real): real {
    ChannelAt(UpperMix(saturation, lightness), LowerMix(saturation, lightness), h, offset)
  }

  function ToChannel(x: Fraction): Channel { Round(x * 255.0) }

  /** `accentHslToHex`. */
  function HslToRgb(hue: real, saturation: Fraction, lightness: Fraction): Rgb {
    if saturation == 0.0 then
      var value := ToChannel(lightness);
      Rgb(value, value, value)
    else
      var h := Turn(hue);
      TurnInRange(hue);
      HslChannelInRange(saturation, lightness, h, THIRD);
      HslChannelInRange(saturation, lightness, h, 0.0);
      HslChannelInRange(saturation, lightness, h, -THIRD);
      Rgb(ToChannel(HslChannel(saturation, lightness, h, THIRD)),
          ToChannel(HslChannel(saturation, lightness, h, 0.0)),
          ToChannel(HslChannel(saturation, lightness, h, -THIRD)))
  }

  /** `accentRotateHue`. */
  function RotateHue(c: Rgb, degrees: real): Rgb {
    var hsl := RgbToHsl(c);
    HslToRgb(hsl.hue + degrees, hsl.saturation, hsl.lightness)
  }

  // --------------------------------------------------------- hue is a circle

  /** The double remainder is the fractional part of the number of turns. */
  lemma TurnIsFraction(hue: real)
    ensures Turn(hue) == hue / 360.0 - (hue / 360.0).Floor as real
  {
    var q := hue / 360.0;
    var first := Remainder(hue, 360.0);
    assert hue == 360.0 * q;
    assert -360.0 < first < 360.0;
    var second := (first + 360.0) / 360.0;
    assert first + 360.0 == 360.0 * second;
    if first < 0.0 {
      assert second.Floor == 0;
      assert q.Floor == -((-q).Floor) - 1;
    } else {
      assert second.Floor == 1;
      if q < 0.0 {
        assert first == 0.0;
        assert q.Floor == -((-q).Floor);
      }
    }
  }

  lemma TurnInRange(hue: real)
    ensures 0.0 <= Turn(hue) < 1.0
  {
    TurnIsFraction(hue);
  }

  lemma TurnIsPeriodic(hue: real, turns: int)
    ensures Turn(hue + 360.0 * turns as real) == Turn(hue)
  {
    TurnIsFraction(hue);
    TurnIsFraction(hue + 360.0 * turns as real);
    var q := hue / 360.0;
    assert (hue + 360.0 * turns as real) / 360.0 == q + turns as real;
    assert (q + turns as real).Floor == q.Floor + turns;
  }

  // ------------------------------------------- channels as weighted averages

  /** How much of `q` rather than `p` a hue gives to one channel. */
  function Weight(h: real, offset: real): real {
    var t := WrapOffset(h, offset);
    if t < 1.0 / 6.0 then 6.0 * t
    else if t < 1.0 / 2.0 then 1.0
    else if t < 2.0 / 3.0 then (2.0 / 3.0 - t) * 6.0
    else 0.0
  }

  lemma ChannelIsWeighted(q: real, p: real, h: real, offset: real)
    requires 0.0 <= h < 1.0 && -THIRD <= offset <= THIRD
    ensures 0.0 <= Weight(h, offset) <= 1.0
    ensures ChannelAt(q, p, h, offset) == p + (q - p) * Weight(h, offset)
  {
    var t := WrapOffset(h, offset);
    assert 0.0 <= t <= 1.0;
    assert (q - p) * 6.0 * t == (q - p) * (6.0 * t);
    assert (q - p) * (2.0 / 3.0 - t) * 6.0 == (q - p) * ((2.0 / 3.0 - t) * 6.0);
  }

  lemma ProductInRange(a: Fraction, b: Fraction)
    ensures 0.0 <= a * b <= a && a * b <= b
  {
  }

  lemma ProductSign(a: real, b: real)
    requires b >= 0.0
    ensures a >= 0.0 ==> a * b >= 0.0
    ensures a <= 0.0 ==> a * b <= 0.0
  {
  }

  lemma MixesInRange(saturation: Fraction, lightness: Fraction)
    ensures 0.0 <= LowerMix(saturation, lightness) <= UpperMix(saturation, lightness) <= 1.0
  {
    if lightness < 0.5 {
      UpperMixBelow(saturation, lightness);
      ProductInRange(saturation, lightness);
      AroundLightness(lightness, UpperMix(saturation, lightness), saturation * lightness);
    } else {
      var room: Fraction := 1.0 - lightness;
      UpperMixAbove(saturation, lightness, room);
      ProductInRange(saturation, room);
      AroundLightness(lightness, UpperMix(saturation, lightness), saturation * room);
    }
  }

  lemma UpperMixBelow(saturation: Fraction, lightness: Fraction)
    requires lightness < 0.5
    ensures UpperMix(saturation, lightness) == lightness + saturation * lightness
  {
    assert lightness * (1.0 + saturation) == lightness + lightness * saturation;
  }

  lemma UpperMixAbove(saturation: Fraction, lightness: Fraction, room: Fraction)
    requires lightness >= 0.5 && room == 1.0 - lightness
    ensures UpperMix(saturation, lightness) == lightness + saturation * room
  {
    assert saturation * room == saturation - lightness * saturation;
  }

  /** Both mixes lie the same distance from the lightness, one on either side. */
  lemma AroundLightness(lightness: real, upper: real, gain: real)
    requires 0.0 <= gain <= lightness && gain <= 1.0 - lightness && upper == lightness + gain
    ensures 0.0 <= 2.0 * lightness - upper <= upper <= 1.0
  {
  }

  lemma BetweenInRange(p: real, q: real, w: Fraction)
    requires p <= q
    ensures p <= p + (q - p) * w <= q
  {
  }

  lemma HslChannelInRange(saturation: Fraction, lightness: Fraction, h: real, offset: real)
    requires 0.0 <= h < 1.0 && -THIRD <= offset <= THIRD
    ensures 0.0 <= HslChannel(saturation, lightness, h, offset) <= 1.0
  {
    var q, p := UpperMix(saturation, lightness), LowerMix(saturation, lightness);
    MixesInRange(saturation, lightness);
    ChannelIsWeighted(q, p, h, offset);
    var w := Weight(h, offset);
    BetweenInRange(p, q, w);
    assert ChannelAt(q, p, h, offset) == p + (q - p) * w;
  }

  // ----------------------------------------------------- RGB -> HSL -> RGB

  /** `q` and `p` give back the largest and the smallest channel. */
  lemma MixesRecoverExtremes(max: Fraction, min: Fraction)
    requires min < max
    ensures UpperMix(Saturation(max, min), (max + min) / 2.0) == max
    ensures LowerMix(Saturation(max, min), (max + min) / 2.0) == min
  {
    var l, s, delta := (max + min) / 2.0, Saturation(max, min), max - min;
    if l > 0.5 {
      var room := 2.0 - max - min;
      assert s * room == delta;
      assert l + s - l * s == l + s * (1.0 - l);
      assert s * (1.0 - l) == s * room / 2.0;
    } else {
      assert s * (max + min) == delta;
      assert l * s == s * (max + min) / 2.0;
      if l == 0.5 {
        assert s == delta;
      } else {
        assert l * (1.0 + s) == l + l * s;
      }
    }
  }

  lemma QuotientInverts(x: real, delta: real)
    requires delta > 0.0
    ensures delta * (x / delta) == x
  {
  }

  lemma QuotientBounds(x: real, delta: real)
    requires delta > 0.0
    ensures (x <= delta) == (x / delta <= 1.0) && (x < delta) == (x / delta < 1.0)
    ensures (-delta <= x) == (-1.0 <= x / delta) && (-delta < x) == (-1.0 < x / delta)
    ensures (0.0 <= x) == (0.0 <= x / delta) && (0.0 == x) == (0.0 == x / delta)
    ensures delta * (x / delta) == x
  {
    QuotientInverts(x, delta);
    var y := x / delta;
    ProductSign(y, delta);
    ProductSign(y - 1.0, delta);
    ProductSign(y + 1.0, delta);
    assert (y - 1.0) * delta == x - delta;
    assert (y + 1.0) * delta == x + delta;
  }

  /** The three weights of a hue `signed` sixths past the middle of a sector:
      the leading channel has all of `q`, its neighbour the distance walked. */
  lemma SectorWeights(h: real, signed: real, sector: int)
    requires -1.0 <= signed <= 1.0 && 0 <= sector <= 2
    requires h == (signed + (if sector == 0 && signed < 0.0 then 6.0 else 2.0 * sector as real)) / 6.0
    ensures 0.0 <= h < 1.0
    ensures var behind, ahead := if signed < 0.0 then -signed else 0.0, if signed < 0.0 then 0.0 else signed;
            match sector
            case 0 => Weight(h, THIRD) == 1.0 && Weight(h, 0.0) == ahead && Weight(h, -THIRD) == behind
            case 1 => Weight(h, THIRD) == behind && Weight(h, 0.0) == 1.0 && Weight(h, -THIRD) == ahead
            case _ => Weight(h, THIRD) == ahead && Weight(h, 0.0) == behind && Weight(h, -THIRD) == 1.0
  {
  }

  function Blend(max: real, min: real, w: real): real { min + (max - min) * w }

  lemma BlendOfWeight(max: real, min: real, w: real, signed: real, difference: real)
    requires (max - min) * signed == difference
    ensures w == 1.0 ==> Blend(max, min, w) == max
    ensures w == 0.0 ==> Blend(max, min, w) == min
    ensures w == signed ==> Blend(max, min, w) == min + difference
    ensures w == -signed ==> Blend(max, min, w) == min - difference
  {
    assert (max - min) * -signed == -((max - min) * signed);
  }

  ghost predicate Extremes(r: Fraction, g: Fraction, b: Fraction, max: Fraction, min: Fraction) {
    max == Max(r, Max(g, b)) && min == Min(r, Min(g, b)) && min < max
  }

  /** 0, 1 or 2 as red, green or blue leads; the source tests them in this order. */
  function Sector(r: Fraction, g: Fraction, b: Fraction, max: Fraction): int {
    if max == r then 0 else if max == g then 1 else 2
  }

  /** How far the two other channels differ, signed in the hue's direction. */
  function Lean(r: Fraction, g: Fraction, b: Fraction, max: Fraction): real {
    if max == r then g - b else if max == g then b - r else r - g
  }

  lemma LeanBounds(r: Fraction, g: Fraction, b: Fraction, max: Fraction, min: Fraction)
    requires Extremes(r, g, b, max, min)
    ensures min - max <= Lean(r, g, b, max) <= max - min
  {
  }

  /** A chromatic colour's three channels come back exactly. */
  lemma BlendsRecover(r: Fraction, g: Fraction, b: Fraction, max: Fraction, min: Fraction,
                      signed: real, wr: real, wg: real, wb: real)
    requires Extremes(r, g, b, max, min)
    requires (max - min) * signed == Lean(r, g, b, max)
    requires (signed < 0.0) == (Lean(r, g, b, max) < 0.0)
    requires var behind, ahead := if signed < 0.0 then -signed else 0.0, if signed < 0.0 then 0.0 else signed;
             match Sector(r, g, b, max)
             case 0 => wr == 1.0 && wg == ahead && wb == behind
             case 1 => wr == behind && wg == 1.0 && wb == ahead
             case _ => wr == ahead && wg == behind && wb == 1.0
    ensures Blend(max, min, wr) == r && Blend(max, min, wg) == g && Blend(max, min, wb) == b
  {
    BlendOfWeight(max, min, wr, signed, Lean(r, g, b, max));
    BlendOfWeight(max, min, wg, signed, Lean(r, g, b, max));
    BlendOfWeight(max, min, wb, signed, Lean(r, g, b, max));
  }

  /** The hue `accentRgbToHsl` computes for a chromatic colour, as a fraction of a turn. */
  function SectorHue(r: Fraction, g: Fraction, b: Fraction, max: Fraction, min: Fraction): real
    requires min < max
  {
    var signed := Lean(r, g, b, max) / (max - min);
    (signed + (if max == r && g < b then 6.0 else 2.0 * Sector(r, g, b, max) as real)) / 6.0
  }

  lemma ChannelsRecovered(r: Fraction, g: Fraction, b: Fraction, max: Fraction, min: Fraction, h: real)
    requires Extremes(r, g, b, max, min) && h == SectorHue(r, g, b, max, min)
    ensures 0.0 <= h < 1.0
    ensures Blend(max, min, Weight(h, THIRD)) == r
    ensures Blend(max, min, Weight(h, 0.0)) == g
    ensures Blend(max, min, Weight(h, -THIRD)) == b
  {
    var lean := Lean(r, g, b, max);
    var signed := lean / (max - min);
    LeanBounds(r, g, b, max, min);
    QuotientBounds(lean, max - min);
    SectorWeights(h, signed, Sector(r, g, b, max));
    BlendsRecover(r, g, b, max, min, signed, Weight(h, THIRD), Weight(h, 0.0), Weight(h, -THIRD));
  }

  lemma ToChannelInverts(c: Channel)
    ensures ToChannel(Scaled(c)) == c
  {
    assert c as real / 255.0 * 255.0 == c as real;
  }

  lemma TurnOfNormalHue(h: real)
    requires 0.0 <= h < 1.0
    ensures Turn(h * 360.0) == h
  {
    TurnIsFraction(h * 360.0);
    assert h * 360.0 / 360.0 == h;
  }

  lemma HueOfChromatic(c: Rgb)
    requires RgbToHsl(c).saturation != 0.0
    ensures var r, g, b := Scaled(c.r), Scaled(c.g), Scaled(c.b);
            var max, min := Max(r, Max(g, b)), Min(r, Min(g, b));
            && min < max && RgbToHsl(c).hue == SectorHue(r, g, b, max, min) * 360.0
            && RgbToHsl(c).saturation == Saturation(max, min)
  {
  }

  lemma HslChannelIsBlend(max: Fraction, min: Fraction, h: real, offset: real)
    requires min < max && 0.0 <= h < 1.0 && -THIRD <= offset <= THIRD
    ensures HslChannel(Saturation(max, min), (max + min) / 2.0, h, offset) == Blend(max, min, Weight(h, offset))
  {
    MixesRecoverExtremes(max, min);
    ChannelIsWeighted(max, min, h, offset);
  }

  /** The colour a hue and a span make, read through the weights. */
  lemma HslToRgbIsBlend(hue: real, max: Fraction, min: Fraction, saturation: Fraction, h: real, c: Rgb)
    requires min < max && h == Turn(hue) && 0.0 <= h < 1.0
    requires saturation == Saturation(max, min)
    requires Blend(max, min, Weight(h, THIRD)) == Scaled(c.r)
    requires Blend(max, min, Weight(h, 0.0)) == Scaled(c.g)
    requires Blend(max, min, Weight(h, -THIRD)) == Scaled(c.b)
    ensures HslToRgb(hue, saturation, (max + min) / 2.0) == c
  {
    SaturationIsPositive(max, min);
    HslChannelIsBlend(max, min, h, THIRD);
    HslChannelIsBlend(max, min, h, 0.0);
    HslChannelIsBlend(max, min, h, -THIRD);
    RgbOfChannels(hue, saturation, (max + min) / 2.0, c);
  }

  lemma RgbOfChannels(hue: real, saturation: Fraction, lightness: Fraction, c: Rgb)
    requires saturation != 0.0
    requires HslChannel(saturation, lightness, Turn(hue), THIRD) == Scaled(c.r)
    requires HslChannel(saturation, lightness, Turn(hue), 0.0) == Scaled(c.g)
    requires HslChannel(saturation, lightness, Turn(hue), -THIRD) == Scaled(c.b)
    ensures HslToRgb(hue, saturation, lightness) == c
  {
    ToChannelInverts(c.r);
    ToChannelInverts(c.g);
    ToChannelInverts(c.b);
  }

  /** Converting to HSL and back is the identity, whatever whole number of turns
      is added to the hue: rotating by any multiple of 360 degrees changes nothing. */
  lemma RotateByWholeTurns(c: Rgb, turns: int)
    ensures RotateHue(c, 360.0 * turns as real) == c
  {
    var r, g, b := Scaled(c.r), Scaled(c.g), Scaled(c.b);
    var max, min := Max(r, Max(g, b)), Min(r, Min(g, b));
    var hsl := RgbToHsl(c);
    if max == min {
      ToChannelInverts(c.r);
      ToChannelInverts(c.g);
      ToChannelInverts(c.b);
    } else {
      SaturationIsPositive(max, min);
      HueOfChromatic(c);
      var h := SectorHue(r, g, b, max, min);
      ChannelsRecovered(r, g, b, max, min, h);
      TurnOfNormalHue(h);
      TurnIsPeriodic(hsl.hue, turns);
      HslToRgbIsBlend(hsl.hue + 360.0 * turns as real, max, min, hsl.saturation, h, c);
    }
  }

  lemma SaturationIsPositive(max: Fraction, min: Fraction)
    requires min < max
    ensures Saturation(max, min) > 0.0
  {
    var s := Saturation(max, min);
    assert s == 0.0 ==> s * (max + min) == 0.0 && s * (2.0 - max - min) == 0.0;
  }

  /** Rotation sees only the angle modulo a full turn. */
  lemma RotationIsPeriodic(c: Rgb, degrees: real, turns: int)
    ensures RotateHue(c, degrees + 360.0 * turns as real) == RotateHue(c, degrees)
  {
    var hue := RgbToHsl(c).hue;
    TurnIsPeriodic(hue + degrees, turns);
    assert hue + (degrees + 360.0 * turns as real) == hue + degrees + 360.0 * turns as real;
  }

  // ----------------------------------------- which way, and how far, is a turn

  /** `n` is the whole number nearest to `x`, the upper one when two are as near. */
  predicate RoundsTo(x: real, n: int) { n as real - 0.5 <= x < n as real + 0.5 }

  /** `c` has these extremes and this hue, up to the rounding of each channel. */
  predicate IsBlend(c: Rgb, max: real, min: real, hue: real) {
    && RoundsTo(255.0 * Blend(max, min, Weight(hue, THIRD)), c.r)
    && RoundsTo(255.0 * Blend(max, min, Weight(hue, 0.0)), c.g)
    && RoundsTo(255.0 * Blend(max, min, Weight(hue, -THIRD)), c.b)
  }

  /** Rotation by any angle whatever: grey stays as it is, and any other colour keeps
      its extremes and goes that far on around the circle of hues. */
  lemma RotationTurnsTheHue(c: Rgb, degrees: real)
    ensures var r, g, b := Scaled(c.r), Scaled(c.g), Scaled(c.b);
            var max, min := Max(r, Max(g, b)), Min(r, Min(g, b));
            if max == min then RotateHue(c, degrees) == c
            else
              var turns := SectorHue(r, g, b, max, min) + degrees / 360.0;
              IsBlend(RotateHue(c, degrees), max, min, turns - turns.Floor as real)
  {
    var r, g, b := Scaled(c.r), Scaled(c.g), Scaled(c.b);
    var max, min := Max(r, Max(g, b)), Min(r, Min(g, b));
    if max == min {
      ToChannelInverts(c.r);
    } else {
      ChromaticHsl(c, max, min);
      var h := SectorHue(r, g, b, max, min);
      TurnIsFraction(h * 360.0 + degrees);
      assert (h * 360.0 + degrees) / 360.0 == h + degrees / 360.0;
      HslToRgbBlends(h * 360.0 + degrees, max, min);
    }
  }

  lemma HslToRgbBlends(hue: real, max: Fraction, min: Fraction)
    requires min < max
    ensures IsBlend(HslToRgb(hue, Saturation(max, min), (max + min) / 2.0), max, min, Turn(hue))
  {
    SaturationIsPositive(max, min);
    TurnInRange(hue);
    HslChannelIsBlend(max, min, Turn(hue), THIRD);
    HslChannelIsBlend(max, min, Turn(hue), 0.0);
    HslChannelIsBlend(max, min, Turn(hue), -THIRD);
    HslChannelInRange(Saturation(max, min), (max + min) / 2.0, Turn(hue), THIRD);
    HslChannelInRange(Saturation(max, min), (max + min) / 2.0, Turn(hue), 0.0);
    HslChannelInRange(Saturation(max, min), (max + min) / 2.0, Turn(hue), -THIRD);
  }

  /** How far apart two hues are, the shorter way round. */
  function Apart(h: real, k: real): real {
    var d := if h >= k then h - k else k - h;
    if d > 0.5 then 1.0 - d else d
  }

  /** A channel's own hue is red's, green's or blue's. Up to a sixth of a turn from it
      the channel is at its largest, from a third on at its smallest, and in between
      it falls in proportion. */
  lemma WeightIsNearness(h: real, offset: real)
    requires 0.0 <= h < 1.0 && (offset == THIRD || offset == 0.0 || offset == -THIRD)
    ensures Weight(h, offset) == Max(0.0, Min(1.0, 2.0 - 6.0 * Apart(h, THIRD - offset)))
  {
  }

  lemma FloorIs(x: real, n: int)
    requires n as real <= x < n as real + 1.0
    ensures x.Floor == n
  {
  }

  lemma FractionPlus(q: real, part: real)
    requires 0.0 <= part < 1.0
    ensures var f := q - q.Floor as real;
            q + part - (q + part).Floor as real == if f + part < 1.0 then f + part else f + part - 1.0
  {
    var n := q.Floor;
    FloorIs(q + part, if q - n as real + part < 1.0 then n else n + 1);
  }

  lemma TurnPlus(hue: real, part: real)
    requires 0.0 <= part < 1.0
    ensures Turn(hue + 360.0 * part)
            == if Turn(hue) + part < 1.0 then Turn(hue) + part else Turn(hue) + part - 1.0
  {
    TurnIsFraction(hue);
    TurnIsFraction(hue + 360.0 * part);
    var q := hue / 360.0;
    assert (hue + 360.0 * part) / 360.0 == q + part;
    FractionPlus(q, part);
  }

  lemma WeightsCycle(h: real, ahead: real)
    requires 0.0 <= h < 1.0 && ahead == if h + THIRD < 1.0 then h + THIRD else h + THIRD - 1.0
    ensures Weight(ahead, 0.0) == Weight(h, THIRD)
    ensures Weight(ahead, -THIRD) == Weight(h, 0.0)
    ensures Weight(ahead, THIRD) == Weight(h, -THIRD)
  {
  }

  lemma WeightsOppose(h: real, ahead: real, offset: real)
    requires 0.0 <= h < 1.0 && ahead == if h + 0.5 < 1.0 then h + 0.5 else h + 0.5 - 1.0
    requires offset == THIRD || offset == 0.0 || offset == -THIRD
    ensures Weight(ahead, offset) == 1.0 - Weight(h, offset)
  {
  }

  lemma SameWeightSameChannel(saturation: Fraction, lightness: Fraction, h: real, o: real, h': real, o': real)
    requires 0.0 <= h < 1.0 && -THIRD <= o <= THIRD && 0.0 <= h' < 1.0 && -THIRD <= o' <= THIRD
    requires Weight(h, o) == Weight(h', o')
    ensures HslChannel(saturation, lightness, h, o) == HslChannel(saturation, lightness, h', o')
  {
    var q, p := UpperMix(saturation, lightness), LowerMix(saturation, lightness);
    ChannelIsWeighted(q, p, h, o);
    ChannelIsWeighted(q, p, h', o');
  }

  /** A third of a turn hands each channel to the next: red to green to blue. */
  lemma ThirdOfATurn(c: Rgb, degrees: real)
    ensures var d := RotateHue(c, degrees);
            RotateHue(c, degrees + 120.0) == Rgb(d.b, d.r, d.g)
  {
    var hsl := RgbToHsl(c);
    if hsl.saturation != 0.0 {
      var h, ahead := Turn(hsl.hue + degrees), Turn(hsl.hue + degrees + 120.0);
      TurnInRange(hsl.hue + degrees);
      TurnPlus(hsl.hue + degrees, THIRD);
      assert hsl.hue + (degrees + 120.0) == hsl.hue + degrees + 120.0;
      WeightsCycle(h, ahead);
      SameWeightSameChannel(hsl.saturation, hsl.lightness, ahead, 0.0, h, THIRD);
      SameWeightSameChannel(hsl.saturation, hsl.lightness, ahead, -THIRD, h, 0.0);
      SameWeightSameChannel(hsl.saturation, hsl.lightness, ahead, THIRD, h, -THIRD);
    }
  }

  lemma OppositeBlend(max: Fraction, min: Fraction, w: real, x: Channel, high: Channel, low: Channel)
    requires Blend(max, min, w) == Scaled(x) && max == Scaled(high) && min == Scaled(low) && low <= x <= high
    ensures Blend(max, min, 1.0 - w) == Scaled(high + low - x)
  {
    assert (max - min) * (1.0 - w) == (max - min) - (max - min) * w;
  }

  function MaxChannel(a: Channel, b: Channel): Channel { if a >= b then a else b }

  function MinChannel(a: Channel, b: Channel): Channel { if a <= b then a else b }

  lemma ExtremesAreChannels(c: Rgb)
    ensures var r, g, b := Scaled(c.r), Scaled(c.g), Scaled(c.b);
            && Max(r, Max(g, b)) == Scaled(MaxChannel(c.r, MaxChannel(c.g, c.b)))
            && Min(r, Min(g, b)) == Scaled(MinChannel(c.r, MinChannel(c.g, c.b)))
  {
  }

  lemma OppositeChannels(c: Rgb, max: Fraction, min: Fraction, high: Channel, low: Channel, h: real, ahead: real)
    requires Extremes(Scaled(c.r), Scaled(c.g), Scaled(c.b), max, min)
    requires max == Scaled(high) && min == Scaled(low)
    requires low <= c.r <= high && low <= c.g <= high && low <= c.b <= high
    requires h == SectorHue(Scaled(c.r), Scaled(c.g), Scaled(c.b), max, min)
    requires ahead == if h + 0.5 < 1.0 then h + 0.5 else h + 0.5 - 1.0
    ensures Blend(max, min, Weight(ahead, THIRD)) == Scaled(high + low - c.r)
    ensures Blend(max, min, Weight(ahead, 0.0)) == Scaled(high + low - c.g)
    ensures Blend(max, min, Weight(ahead, -THIRD)) == Scaled(high + low - c.b)
  {
    ChannelsRecovered(Scaled(c.r), Scaled(c.g), Scaled(c.b), max, min, h);
    WeightsOppose(h, ahead, THIRD);
    WeightsOppose(h, ahead, 0.0);
    WeightsOppose(h, ahead, -THIRD);
    OppositeBlend(max, min, Weight(h, THIRD), c.r, high, low);
    OppositeBlend(max, min, Weight(h, 0.0), c.g, high, low);
    OppositeBlend(max, min, Weight(h, -THIRD), c.b, high, low);
  }

  /** Half a turn exchanges the largest and the smallest channel and mirrors the third. */
  lemma HalfATurn(c: Rgb)
    ensures var high := MaxChannel(c.r, MaxChannel(c.g, c.b));
            var low := MinChannel(c.r, MinChannel(c.g, c.b));
            RotateHue(c, 180.0) == Rgb(high + low - c.r, high + low - c.g, high + low - c.b)
  {
    var r, g, b := Scaled(c.r), Scaled(c.g), Scaled(c.b);
    var max, min := Max(r, Max(g, b)), Min(r, Min(g, b));
    var high, low := MaxChannel(c.r, MaxChannel(c.g, c.b)), MinChannel(c.r, MinChannel(c.g, c.b));
    if max == min {
      ToChannelInverts(c.r);
    } else {
      ChromaticHalfTurn(c, max, min, high, low);
    }
  }

  lemma ChromaticHalfTurn(c: Rgb, max: Fraction, min: Fraction, high: Channel, low: Channel)
    requires Extremes(Scaled(c.r), Scaled(c.g), Scaled(c.b), max, min)
    requires high == MaxChannel(c.r, MaxChannel(c.g, c.b)) && low == MinChannel(c.r, MinChannel(c.g, c.b))
    ensures RotateHue(c, 180.0) == Rgb(high + low - c.r, high + low - c.g, high + low - c.b)
  {
    ExtremesAreChannels(c);
    ChromaticHsl(c, max, min);
    HalfTurnedChannels(c, max, min, high, low, RgbToHsl(c).hue);
  }

  lemma ChromaticHsl(c: Rgb, max: Fraction, min: Fraction)
    requires Extremes(Scaled(c.r), Scaled(c.g), Scaled(c.b), max, min)
    ensures var h := SectorHue(Scaled(c.r), Scaled(c.g), Scaled(c.b), max, min);
            RgbToHsl(c) == Hsl(h * 360.0, Saturation(max, min), (max + min) / 2.0)
  {
    SaturationIsPositive(max, min);
    HueOfChromatic(c);
  }

  lemma HalfTurnedChannels(c: Rgb, max: Fraction, min: Fraction, high: Channel, low: Channel, hue: real)
    requires Extremes(Scaled(c.r), Scaled(c.g), Scaled(c.b), max, min)
    requires max == Scaled(high) && min == Scaled(low)
    requires low <= c.r <= high && low <= c.g <= high && low <= c.b <= high
    requires hue == SectorHue(Scaled(c.r), Scaled(c.g), Scaled(c.b), max, min) * 360.0
    ensures HslToRgb(hue + 180.0, Saturation(max, min), (max + min) / 2.0)
            == Rgb(high + low - c.r, high + low - c.g, high + low - c.b)
  {
    var h := SectorHue(Scaled(c.r), Scaled(c.g), Scaled(c.b), max, min);
    ChannelsRecovered(Scaled(c.r), Scaled(c.g), Scaled(c.b), max, min, h);
    HalfTurnOfHue(h, hue);
    var ahead := Turn(hue + 180.0);
    OppositeChannels(c, max, min, high, low, h, ahead);
    TurnInRange(hue + 180.0);
    HslToRgbIsBlend(hue + 180.0, max, min, Saturation(max, min), ahead,
                    Rgb(high + low - c.r, high + low - c.g, high + low - c.b));
  }

  lemma HalfTurnOfHue(h: real, hue: real)
    requires 0.0 <= h < 1.0 && hue == h * 360.0
    ensures Turn(hue + 180.0) == if h + 0.5 < 1.0 then h + 0.5 else h + 0.5 - 1.0
  {
    TurnOfNormalHue(h);
    TurnPlus(hue, 0.5);
  }

  // -------------------------------------------------------- monotone in light

  lemma MixesAreMonotone(saturation: Fraction, dark: Fraction, light: Fraction)
    requires dark <= light
    ensures UpperMix(saturation, dark) <= UpperMix(saturation, light)
    ensures LowerMix(saturation, dark) <= LowerMix(saturation, light)
  {
    MixesAtHalf(saturation, dark);
    MixesAtHalf(saturation, light);
    var gain := light - dark;
    ProductSign(gain, 1.0 - saturation);
    ProductSign(gain, 1.0 + saturation);
    assert gain * (1.0 - saturation) == light - dark - (light * saturation - dark * saturation);
    assert gain * (1.0 + saturation) == light - dark + (light * saturation - dark * saturation);
  }

  /** Each mix written on either side of one half, and its value there. */
  lemma MixesAtHalf(saturation: Fraction, lightness: Fraction)
    ensures lightness < 0.5 ==>
              UpperMix(saturation, lightness) == lightness + lightness * saturation
              && UpperMix(saturation, lightness) <= 0.5 + 0.5 * saturation
              && LowerMix(saturation, lightness) <= 0.5 - 0.5 * saturation
    ensures lightness >= 0.5 ==>
              UpperMix(saturation, lightness) >= 0.5 + 0.5 * saturation
              && LowerMix(saturation, lightness) >= 0.5 - 0.5 * saturation
  {
    var away := lightness - 0.5;
    assert away * (1.0 - saturation) == lightness - lightness * saturation - 0.5 + 0.5 * saturation;
    assert away * (1.0 + saturation) == lightness + lightness * saturation - 0.5 - 0.5 * saturation;
    ProductSign(away, 1.0 - saturation);
    ProductSign(away, 1.0 + saturation);
  }

  lemma WeightedIsMonotone(p: real, q: real, p': real, q': real, w: Fraction)
    requires p <= p' && q <= q'
    ensures p + (q - p) * w <= p' + (q' - p') * w
  {
    assert (p' - p) * (1.0 - w) >= 0.0;
    assert (q' - q) * w >= 0.0;
    assert p' + (q' - p') * w - (p + (q - p) * w) == (p' - p) * (1.0 - w) + (q' - q) * w;
  }

  lemma ChannelIsMonotone(saturation: Fraction, dark: Fraction, light: Fraction, h: real, offset: real)
    requires dark <= light && 0.0 <= h < 1.0 && -THIRD <= offset <= THIRD
    ensures HslChannel(saturation, dark, h, offset) <= HslChannel(saturation, light, h, offset)
  {
    MixesAreMonotone(saturation, dark, light);
    ChannelIsWeighted(UpperMix(saturation, dark), LowerMix(saturation, dark), h, offset);
    ChannelIsWeighted(UpperMix(saturation, light), LowerMix(saturation, light), h, offset);
    WeightedIsMonotone(LowerMix(saturation, dark), UpperMix(saturation, dark),
                       LowerMix(saturation, light), UpperMix(saturation, light), Weight(h, offset));
  }

  /** At a fixed hue and saturation, more light never lowers any channel. */
  lemma LightnessIsMonotone(hue: real, saturation: Fraction, dark: Fraction, light: Fraction)
    requires dark <= light
    ensures var d, l := HslToRgb(hue, saturation, dark), HslToRgb(hue, saturation, light);
            d.r <= l.r && d.g <= l.g && d.b <= l.b
  {
    if saturation != 0.0 {
      TurnInRange(hue);
      ChannelIsMonotone(saturation, dark, light, Turn(hue), THIRD);
      ChannelIsMonotone(saturation, dark, light, Turn(hue), 0.0);
      ChannelIsMonotone(saturation, dark, light, Turn(hue), -THIRD);
      forall o | o == THIRD || o == 0.0 || o == -THIRD
        ensures 0.0 <= HslChannel(saturation, dark, Turn(hue), o) <= 1.0
        ensures 0.0 <= HslChannel(saturation, light, Turn(hue), o) <= 1.0
      {
        HslChannelInRange(saturation, dark, Turn(hue), o);
        HslChannelInRange(saturation, light, Turn(hue), o);
      }
    }
  }

  // ------------------------------------------------------ how fast channels move

  lemma MixesMoveTwiceAtMost(saturation: Fraction, dark: Fraction, light: Fraction)
    requires dark <= light
    ensures UpperMix(saturation, light) - UpperMix(saturation, dark) <= 2.0 * (light - dark)
    ensures LowerMix(saturation, light) - LowerMix(saturation, dark) <= 2.0 * (light - dark)
  {
    MixesAreMonotone(saturation, dark, light);
  }

  lemma WeightedMovesAtMost(p: real, q: real, p': real, q': real, w: Fraction, most: real)
    requires p' - p <= most && q' - q <= most
    ensures p' + (q' - p') * w - (p + (q - p) * w) <= most
  {
    assert (most - (p' - p)) * (1.0 - w) >= 0.0;
    assert (most - (q' - q)) * w >= 0.0;
    assert most - (p' + (q' - p') * w - (p + (q - p) * w))
           == (most - (p' - p)) * (1.0 - w) + (most - (q' - q)) * w;
  }

  /** A channel moves at most twice as far as the lightness. */
  lemma ChannelMovesTwiceAtMost(saturation: Fraction, dark: Fraction, light: Fraction, h: real, offset: real)
    requires dark <= light && 0.0 <= h < 1.0 && -THIRD <= offset <= THIRD
    ensures HslChannel(saturation, light, h, offset) - HslChannel(saturation, dark, h, offset) <= 2.0 * (light - dark)
  {
    MixesMoveTwiceAtMost(saturation, dark, light);
    ChannelIsWeighted(UpperMix(saturation, dark), LowerMix(saturation, dark), h, offset);
    ChannelIsWeighted(UpperMix(saturation, light), LowerMix(saturation, light), h, offset);
    WeightedMovesAtMost(LowerMix(saturation, dark), UpperMix(saturation, dark),
                        LowerMix(saturation, light), UpperMix(saturation, light), Weight(h, offset),
                        2.0 * (light - dark));
  }

  lemma RoundingMovesOneAtMost(x: Fraction, y: Fraction)
    requires y - x < 1.0 / 255.0
    ensures ToChannel(y) <= ToChannel(x) + 1
  {
    FloorIs(x * 255.0 + 0.5, (x * 255.0 + 0.5).Floor);
  }

  /** Two lightnesses less than one 510th apart make colours at most one step apart
      in each channel. */
  lemma CloseLightnessCloseColour(hue: real, saturation: Fraction, dark: Fraction, light: Fraction)
    requires dark <= light && light - dark < 1.0 / 510.0
    ensures var d, l := HslToRgb(hue, saturation, dark), HslToRgb(hue, saturation, light);
            d.r <= l.r <= d.r + 1 && d.g <= l.g <= d.g + 1 && d.b <= l.b <= d.b + 1
  {
    LightnessIsMonotone(hue, saturation, dark, light);
    if saturation == 0.0 {
      RoundingMovesOneAtMost(dark, light);
    } else {
      TurnInRange(hue);
      CloseChannels(saturation, dark, light, Turn(hue), THIRD);
      CloseChannels(saturation, dark, light, Turn(hue), 0.0);
      CloseChannels(saturation, dark, light, Turn(hue), -THIRD);
    }
  }

  lemma CloseChannels(saturation: Fraction, dark: Fraction, light: Fraction, h: real, offset: real)
    requires dark <= light && light - dark < 1.0 / 510.0 && 0.0 <= h < 1.0 && -THIRD <= offset <= THIRD
    ensures 0.0 <= HslChannel(saturation, dark, h, offset) <= 1.0
    ensures 0.0 <= HslChannel(saturation, light, h, offset) <= 1.0
    ensures ToChannel(HslChannel(saturation, light, h, offset))
            <= ToChannel(HslChannel(saturation, dark, h, offset)) + 1
  {
    HslChannelInRange(saturation, dark, h, offset);
    HslChannelInRange(saturation, light, h, offset);
    ChannelMovesTwiceAtMost(saturation, dark, light, h, offset);
    RoundingMovesOneAtMost(HslChannel(saturation, dark, h, offset), HslChannel(saturation, light, h, offset));
  }
}
