/** The plugin's `charge_to_color` (`__init__.py` lines 33-78): a diverging
    colour ramp from a partial charge to a "0x"-prefixed lower-case RGB hex
    string, white at 0, yellow at 0.25, red at 1, cyan at -0.25, blue at -1.
    Charges are exact reals; Python's `round` is modelled exactly. */
module ChargeColor {

  type Byte = x: int | 0 <= x < 256

  /** The three channels as the source holds them: plain integers, which the
      byte array built from them at line 76 accepts only inside 0..255. */
  datatype Rgb = Rgb(r: int, g: int, b: int)

  const White := Rgb(255, 255, 255)

  predicate InByteRange(c: Rgb) {
    0 <= c.r < 256 && 0 <= c.g < 256 && 0 <= c.b < 256
  }

  // ---------------------------------------------------------------------------
  // Python's round: nearest integer, ties to the even neighbour

  predicate IsRoundingOf(x: real, n: int) {
    && x - 0.5 <= n as real <= x + 0.5
    && ((n as real - x == 0.5 || x - n as real == 0.5) ==> n % 2 == 0)
  }

  /** Python 3's built-in `round(x)` on a number: the integer nearest to `x`,
      and on a tie (a fractional part of exactly one half) the even one. */
  function RoundHalfEven(x: real): (n: int)
    ensures IsRoundingOf(x, n)
  {
    var f := x.Floor;
    var frac := x - f as real;
    if frac < 0.5 then f
    else if frac > 0.5 then f + 1
    else if f % 2 == 0 then f else f + 1
  }

  /** The rounding is the only integer within one half of `x` that is even on
      ties, so RoundHalfEven is exactly Python's `round`. */
  lemma RoundingIsUnique(x: real, m: int)
    requires IsRoundingOf(x, m)
    ensures m == RoundHalfEven(x)
  {
  }

  lemma RoundMonotone(x: real, y: real)
    requires x <= y
    ensures RoundHalfEven(x) <= RoundHalfEven(y)
  {
  }

  // ---------------------------------------------------------------------------
  // The channel arithmetic of lines 49-74, for a clamped magnitude q in (0, 1]

  /** The channel that fades first (blue for a positive charge, red for a
      negative one): 255 minus round(4 * q * 255), floored at 0. */
  function FadingChannel(q: real): (v: int)
    requires 0.0 <= q <= 1.0
    ensures 0 <= v <= 255
    ensures q == 0.0 ==> v == 255
    ensures v == 0 <==> q > 509.0 / 2040.0
  {
    var v := 255 - RoundHalfEven(4.0 * q * 255.0);
    if v < 0 then 0 else v
  }

  /** Green: 255 minus round(4/3 * (q - 0.25) * 255), capped at 255. */
  function GreenChannel(q: real): (v: int)
    requires 0.0 <= q <= 1.0
    ensures 0 <= v <= 255
    ensures v == 255 <==> q <= 171.0 / 680.0
    ensures q == 1.0 ==> v == 0
  {
    var v := 255 - RoundHalfEven(4.0 / 3.0 * (q - 0.25) * 255.0);
    if v > 255 then 255 else v
  }

  /** The charge magnitude after the clamp to [-1, 1] of lines 50-51 and
      63-65. */
  function Magnitude(charge: real): (q: real)
    ensures 0.0 <= q <= 1.0
    ensures q == 0.0 <==> charge == 0.0
    ensures -1.0 <= charge <= 1.0 ==> (q == charge || q == -charge)
  {
    if charge > 1.0 || charge < -1.0 then 1.0
    else if charge < 0.0 then -charge
    else charge
  }

  /** The channels `charge_to_color` computes, before hex encoding. Every
      channel stays inside 0..255, so `bytearray` never rejects them; a
      positive charge never touches red and a negative one never touches blue. */
  function Channels(charge: real): (c: Rgb)
    ensures InByteRange(c)
    ensures charge >= 0.0 ==> c.r == 255
    ensures charge <= 0.0 ==> c.b == 255
    ensures charge == 0.0 ==> c == White
  {
    var q := Magnitude(charge);
    if charge > 0.0 then Rgb(255, GreenChannel(q), FadingChannel(q))
    else if charge < 0.0 then Rgb(FadingChannel(q), GreenChannel(q), 255)
    else White
  }

  // ---------------------------------------------------------------------------
  // Hex encoding (line 76): the three channels as bytes, each written as two
  // lower-case hex digits, after a "0x" prefix

  predicate IsLowerHex(ch: char) {
    ('0' <= ch <= '9') || ('a' <= ch <= 'f')
  }

  function HexDigit(d: int): (ch: char)
    requires 0 <= d < 16
    ensures IsLowerHex(ch)
  {
    if d < 10 then ('0' as int + d) as char else ('a' as int + d - 10) as char
  }

  function HexValue(ch: char): (d: int)
    requires IsLowerHex(ch)
    ensures 0 <= d < 16
    ensures HexDigit(d) == ch
  {
    if ch <= '9' then ch as int - '0' as int else ch as int - 'a' as int + 10
  }

  /** The hex form of one byte (line 76): two lower-case digits, high nibble
      first. */
  function ByteHex(b: Byte): (s: string)
    ensures |s| == 2 && IsLowerHex(s[0]) && IsLowerHex(s[1])
    ensures 16 * HexValue(s[0]) + HexValue(s[1]) == b
  {
    [HexDigit(b / 16), HexDigit(b % 16)]
  }

  /** What `charge_to_color` returns: "0x" and six lower-case hex digits. */
  predicate IsColorString(s: string) {
    |s| == 8 && s[..2] == "0x" && forall i :: 2 <= i < 8 ==> IsLowerHex(s[i])
  }

  function ByteAt(s: string, i: nat): Byte
    requires i + 1 < |s| && IsLowerHex(s[i]) && IsLowerHex(s[i + 1])
  {
    16 * HexValue(s[i]) + HexValue(s[i + 1])
  }

  /** Reads a colour string back into its three channels. */
  function DecodeColor(s: string): Rgb
    requires IsColorString(s)
  {
    Rgb(ByteAt(s, 2), ByteAt(s, 4), ByteAt(s, 6))
  }

  function EncodeColor(c: Rgb): (s: string)
    requires InByteRange(c)
    ensures IsColorString(s)
    ensures DecodeColor(s) == c
  {
    var s := "0x" + ByteHex(c.r) + ByteHex(c.g) + ByteHex(c.b);
    assert s[2..4] == ByteHex(c.r) && s[4..6] == ByteHex(c.g) && s[6..8] == ByteHex(c.b);
    s
  }

  /** Lower-case hex is canonical: every colour string is the encoding of the
      channels it denotes, so EncodeColor and DecodeColor are inverse. */
  lemma EncodeDecodeColor(s: string)
    requires IsColorString(s)
    ensures EncodeColor(DecodeColor(s)) == s
  {
    ByteAtRoundTrip(s, 2);
    ByteAtRoundTrip(s, 4);
    ByteAtRoundTrip(s, 6);
    EightSplit(s);
  }

  lemma EightSplit(s: string)
    requires |s| == 8
    ensures s == s[..2] + s[2..4] + s[4..6] + s[6..8]
  {
  }

  lemma ByteAtRoundTrip(s: string, i: nat)
    requires i + 1 < |s| && IsLowerHex(s[i]) && IsLowerHex(s[i + 1])
    ensures ByteHex(ByteAt(s, i)) == s[i..i + 2]
  {
    HexPairRoundTrip(s[i], s[i + 1]);
  }

  lemma HexPairRoundTrip(hi: char, lo: char)
    requires IsLowerHex(hi) && IsLowerHex(lo)
    ensures ByteHex(16 * HexValue(hi) + HexValue(lo)) == [hi, lo]
  {
    var b := 16 * HexValue(hi) + HexValue(lo);
    assert b / 16 == HexValue(hi) && b % 16 == HexValue(lo);
  }

  /** The plugin's `charge_to_color`: a well-formed colour string that
      denotes exactly the computed channels. */
  function ChargeToColor(charge: real): (hex: string)
    ensures IsColorString(hex)
    ensures DecodeColor(hex) == Channels(charge)
  {
    EncodeColor(Channels(charge))
  }

  // ---------------------------------------------------------------------------
  // Properties of the ramp

  /** The five calibration points of the docstring (lines 36-41). */
  lemma AnchorColors()
    ensures ChargeToColor(0.0) == "0xffffff"
    ensures ChargeToColor(1.0) == "0xff0000"
    ensures ChargeToColor(0.25) == "0xffff00"
    ensures ChargeToColor(-0.25) == "0x00ffff"
    ensures ChargeToColor(-1.0) == "0x0000ff"
  {
    AnchorChannels();
    assert ByteHex(255) == "ff";
    assert ByteHex(0) == "00";
  }

  lemma AnchorChannels()
    ensures Channels(0.0) == White
    ensures Channels(1.0) == Rgb(255, 0, 0)
    ensures Channels(0.25) == Rgb(255, 255, 0)
    ensures Channels(-0.25) == Rgb(0, 255, 255)
    ensures Channels(-1.0) == Rgb(0, 0, 255)
  {
  }

  /** Charges above 1 are drawn like 1, charges below -1 like -1. */
  lemma ClampedBeyondUnit(charge: real)
    ensures charge >= 1.0 ==> ChargeToColor(charge) == ChargeToColor(1.0)
    ensures charge <= -1.0 ==> ChargeToColor(charge) == ChargeToColor(-1.0)
  {
  }

  /** The negative half of the ramp mirrors the positive half: negating the
      charge swaps red and blue and keeps green. */
  lemma MirrorSymmetry(charge: real)
    ensures Channels(-charge) == Rgb(Channels(charge).b, Channels(charge).g, Channels(charge).r)
  {
  }

  /** Green stays saturated exactly while the magnitude is at most 171/680
      (0.25 plus the half-unit rounding margin): the yellow and cyan points
      are where green starts to fall. */
  lemma GreenSaturation(charge: real)
    ensures Channels(charge).g == 255 <==> -171.0 / 680.0 <= charge <= 171.0 / 680.0
  {
  }

  /** For a positive charge the fading channel reaches 0 exactly above
      509/2040 (just under 0.25; the tie at 254.5 rounds to the even 254). */
  lemma BlueVanishes(charge: real)
    requires charge > 0.0
    ensures Channels(charge).b == 0 <==> charge > 509.0 / 2040.0
  {
  }

  /** Moving away from zero never brightens a channel: on each side of the
      ramp the channels are non-increasing in the charge magnitude. */
  lemma RampMonotone(c1: real, c2: real)
    requires 0.0 <= c1 <= c2 || c2 <= c1 <= 0.0
    ensures Channels(c2).r <= Channels(c1).r
    ensures Channels(c2).g <= Channels(c1).g
    ensures Channels(c2).b <= Channels(c1).b
  {
    var q1, q2 := Magnitude(c1), Magnitude(c2);
    assert q1 <= q2;
    RoundMonotone(4.0 * q1 * 255.0, 4.0 * q2 * 255.0);
    RoundMonotone(4.0 / 3.0 * (q1 - 0.25) * 255.0, 4.0 / 3.0 * (q2 - 0.25) * 255.0);
  }
}
