/**
 * The colour codec of script.js: `hexToRGB` turns a `#rrggbb` string into
 * three channels, `RGBToHex` writes each channel back as two lowercase hex
 * digits padded with `0`. The saturating colour steps used by the widget
 * state machine live here too.
 */
module Colour {
  import opened Wrappers

  /** One colour channel, as produced by the codec and kept by the steps. */
  type Channel = c: int | 0 <= c <= 255

  datatype Rgb = Rgb(red: Channel, green: Channel, blue: Channel)

  /** The digit `Number.prototype.toString(16)` writes for a value below 16. */
  function HexDigit(v: nat): (ch: char)
    requires v < 16
    ensures IsLowerHexDigit(ch)
  {
    if v < 10 then ('0' as int + v) as char else ('a' as int + v - 10) as char
  }

  predicate IsLowerHexDigit(ch: char) {
    '0' <= ch <= '9' || 'a' <= ch <= 'f'
  }

  /** The digits `parseInt(_, 16)` accepts, in either case. */
  predicate IsHexDigit(ch: char) {
    IsLowerHexDigit(ch) || 'A' <= ch <= 'F'
  }

  /** The canonical colour string: `#` and six lowercase hex digits. */
  predicate IsColourCode(h: string) {
    && |h| == 7 && h[0] == '#'
    && IsLowerHexDigit(h[1]) && IsLowerHexDigit(h[2])
    && IsLowerHexDigit(h[3]) && IsLowerHexDigit(h[4])
    && IsLowerHexDigit(h[5]) && IsLowerHexDigit(h[6])
  }

  /** The strings `hexToRGB` can read: hex digits, in either case, at positions 1 to 6. */
  predicate IsReadable(h: string) {
    && |h| >= 7
    && IsHexDigit(h[1]) && IsHexDigit(h[2])
    && IsHexDigit(h[3]) && IsHexDigit(h[4])
    && IsHexDigit(h[5]) && IsHexDigit(h[6])
  }

  /** Value of one hex digit. */
  function DigitValue(ch: char): (v: nat)
    requires IsHexDigit(ch)
    ensures v < 16
    ensures IsLowerHexDigit(ch) ==> HexDigit(v) == ch
  {
    if '0' <= ch <= '9' then ch as int - '0' as int
    else if 'a' <= ch <= 'f' then ch as int - 'a' as int + 10
    else ch as int - 'A' as int + 10
  }

  lemma DigitValueOfDigit(v: nat)
    requires v < 16
    ensures IsLowerHexDigit(HexDigit(v)) && DigitValue(HexDigit(v)) == v
  {
  }

  /** `n.toString(16)` for a non-negative integer: the shortest digit string, "0" for zero. */
  function ToHexString(n: nat): (s: string)
    ensures 1 <= |s|
    ensures forall i :: 0 <= i < |s| ==> IsLowerHexDigit(s[i])
    ensures n < 16 <==> |s| == 1
    decreases n
  {
    if n < 16 then [HexDigit(n)] else ToHexString(n / 16) + [HexDigit(n % 16)]
  }

  /** `s.padStart(len, fill)`: prefix copies of `fill` until `s` is `len` long. */
  function PadStart(s: string, len: nat, fill: char): (r: string)
    ensures |r| == if |s| < len then len else |s|
    ensures r[|r| - |s|..] == s
    ensures forall i :: 0 <= i < |r| - |s| ==> r[i] == fill
  {
    if |s| >= len then s else seq(len - |s|, _ => fill) + s
  }

  /** The two base-16 digits of a channel, high digit first. */
  function ChannelToHex(c: Channel): (s: string)
    ensures |s| == 2 && IsLowerHexDigit(s[0]) && IsLowerHexDigit(s[1])
  {
    [HexDigit(c / 16), HexDigit(c % 16)]
  }

  /** `c.toString(16).padStart(2, '0')` is the two-digit code of the channel. */
  lemma ChannelToHexPads(c: Channel)
    ensures PadStart(ToHexString(c), 2, '0') == ChannelToHex(c)
  {
    var digits := ToHexString(c);
    if c < 16 {
      assert digits == [HexDigit(c)];
    } else {
      assert ToHexString(c / 16) == [HexDigit(c / 16)];
      assert digits == [HexDigit(c / 16)] + [HexDigit(c % 16)];
    }
  }

  lemma CodeOfPairs(r: string, g: string, b: string)
    requires |r| == 2 && IsLowerHexDigit(r[0]) && IsLowerHexDigit(r[1])
    requires |g| == 2 && IsLowerHexDigit(g[0]) && IsLowerHexDigit(g[1])
    requires |b| == 2 && IsLowerHexDigit(b[0]) && IsLowerHexDigit(b[1])
    ensures IsColourCode("#" + r + g + b)
  {
    var h := "#" + r + g + b;
    assert h[1] == r[0] && h[2] == r[1];
    assert h[3] == g[0] && h[4] == g[1];
    assert h[5] == b[0] && h[6] == b[1];
  }

  /** `RGBToHex`: `#` followed by the two-digit codes of the three channels. */
  function RgbToHex(c: Rgb): (h: string)
    ensures IsColourCode(h)
  {
    var r, g, b := ChannelToHex(c.red), ChannelToHex(c.green), ChannelToHex(c.blue);
    CodeOfPairs(r, g, b);
    "#" + r + g + b
  }

  /** `RGBToHex` as the source writes it: `#`, then `toString(16).padStart(2, '0')` of each channel. */
  lemma RgbToHexAsWritten(c: Rgb)
    ensures RgbToHex(c) == "#" + PadStart(ToHexString(c.red), 2, '0') + PadStart(ToHexString(c.green), 2, '0') + PadStart(ToHexString(c.blue), 2, '0')
  {
    ChannelToHexPads(c.red);
    ChannelToHexPads(c.green);
    ChannelToHexPads(c.blue);
  }

  /** `String.prototype.slice(start, end)` with non-negative bounds (clamped to the string). */
  function Slice(s: string, start: nat, end: nat): (r: string)
    ensures end <= |s| && start <= end ==> r == s[start..end]
    ensures |r| <= |s|
  {
    var e := if end <= |s| then end else |s|;
    var b := if start <= e then start else e;
    s[b..e]
  }

  /**
   * `parseInt(t, 16)` on a two-character slice made of hex digits. Any
   * other slice yields `None`.
   */
  function ParseChannel(t: string): (r: Option<Channel>)
    ensures r.Some? <==> |t| == 2 && IsHexDigit(t[0]) && IsHexDigit(t[1])
  {
    if |t| == 2 && IsHexDigit(t[0]) && IsHexDigit(t[1]) then
      Some(16 * DigitValue(t[0]) + DigitValue(t[1]))
    else
      None
  }

  /** `hexToRGB`: the channels read from characters 1-2, 3-4 and 5-6; character 0 is skipped. */
  function HexToRgb(h: string): (r: Option<Rgb>)
    ensures r.Some? <==> IsReadable(h)
  {
    var red := ParseChannel(Slice(h, 1, 3));
    var green := ParseChannel(Slice(h, 3, 5));
    var blue := ParseChannel(Slice(h, 5, 7));
    if red.Some? && green.Some? && blue.Some? then
      Some(Rgb(red.value, green.value, blue.value))
    else
      None
  }

  /** A number below 256 is its two base-16 digits. */
  lemma DivMod16(q: nat, r: nat)
    requires r < 16
    ensures (16 * q + r) / 16 == q && (16 * q + r) % 16 == r
  {
  }

  lemma ParseChannelOfChannelToHex(c: Channel)
    ensures ParseChannel(ChannelToHex(c)) == Some(c)
  {
    var hi, lo := c / 16, c % 16;
    assert c == 16 * hi + lo;
    DigitValueOfDigit(hi);
    DigitValueOfDigit(lo);
    assert ChannelToHex(c) == [HexDigit(hi), HexDigit(lo)];
  }

  /** Each two-character slice of a colour code is the pair it was built from. */
  lemma SlicesOfCode(r: string, g: string, b: string)
    requires |r| == 2 && |g| == 2 && |b| == 2
    ensures var h := "#" + r + g + b;
      Slice(h, 1, 3) == r && Slice(h, 3, 5) == g && Slice(h, 5, 7) == b
  {
    var h := "#" + r + g + b;
    assert h == ['#', r[0], r[1], g[0], g[1], b[0], b[1]];
    assert h[1..3] == [r[0], r[1]] == r;
    assert h[3..5] == [g[0], g[1]] == g;
    assert h[5..7] == [b[0], b[1]] == b;
  }

  /** Writing a colour and reading it back gives the same three channels. */
  lemma {:induction false} HexToRgbOfRgbToHex(c: Rgb)
    ensures HexToRgb(RgbToHex(c)) == Some(c)
  {
    SlicesOfCode(ChannelToHex(c.red), ChannelToHex(c.green), ChannelToHex(c.blue));
    ParseChannelOfChannelToHex(c.red);
    ParseChannelOfChannelToHex(c.green);
    ParseChannelOfChannelToHex(c.blue);
  }

  lemma ChannelToHexOfDigits(a: char, b: char)
    requires IsLowerHexDigit(a) && IsLowerHexDigit(b)
    ensures 16 * DigitValue(a) + DigitValue(b) <= 255
    ensures ChannelToHex(16 * DigitValue(a) + DigitValue(b)) == [a, b]
  {
    DivMod16(DigitValue(a), DigitValue(b));
  }

  /** Two lowercase hex digits at `i` read as a channel that writes back as those same two digits. */
  lemma ChannelAt(h: string, i: nat)
    requires i + 2 <= |h| && IsLowerHexDigit(h[i]) && IsLowerHexDigit(h[i + 1])
    ensures ParseChannel(Slice(h, i, i + 2)).Some?
    ensures ChannelToHex(ParseChannel(Slice(h, i, i + 2)).value) == h[i..i + 2]
  {
    var t := Slice(h, i, i + 2);
    assert t == [h[i], h[i + 1]];
    var v := 16 * DigitValue(h[i]) + DigitValue(h[i + 1]);
    assert ParseChannel(t) == Some(v);
    ChannelToHexOfDigits(h[i], h[i + 1]);
    assert ChannelToHex(v) == [h[i], h[i + 1]];
  }

  lemma Reassemble(h: string)
    requires |h| == 7 && h[0] == '#'
    ensures "#" + h[1..3] + h[3..5] + h[5..7] == h
  {
    assert h[..1] == "#";
    assert h[..1] + h[1..3] == h[..3];
    assert h[..3] + h[3..5] == h[..5];
    assert h[..5] + h[5..7] == h;
  }

  /** Reading a canonical colour string and writing it back gives the same string. */
  lemma {:induction false} RgbToHexOfHexToRgb(h: string)
    requires IsColourCode(h)
    ensures HexToRgb(h).Some? && RgbToHex(HexToRgb(h).value) == h
  {
    ChannelAt(h, 1);
    ChannelAt(h, 3);
    ChannelAt(h, 5);
    var c := HexToRgb(h).value;
    assert RgbToHex(c) == "#" + h[1..3] + h[3..5] + h[5..7];
    Reassemble(h);
  }

  /** Channel plus `step`, saturating at 255 (`Math.min(c + step, 255)`). */
  function Up(v: Channel, step: nat): (r: Channel)
    ensures v <= r
    ensures r == v + step || r == 255
  {
    if v + step <= 255 then v + step else 255
  }

  /** Channel minus `step`, saturating at 0 (`Math.max(c - step, 0)`). */
  function Down(v: Channel, step: nat): (r: Channel)
    ensures r <= v
    ensures r == v - step || r == 0
  {
    if v - step >= 0 then v - step else 0
  }

  /** Every channel stepped up, `isEntered`'s and `isReleased`'s colour arithmetic: no channel falls, and each rises by `step` or stops at 255. */
  function Lighten(c: Rgb, step: nat): (r: Rgb)
    ensures c.red <= r.red && c.green <= r.green && c.blue <= r.blue
    ensures (r.red == c.red + step || r.red == 255) && (r.green == c.green + step || r.green == 255) && (r.blue == c.blue + step || r.blue == 255)
  {
    Rgb(Up(c.red, step), Up(c.green, step), Up(c.blue, step))
  }

  /** Every channel stepped down, `isExited`'s and `isPressed`'s colour arithmetic: no channel rises, and each falls by `step` or stops at 0. */
  function Darken(c: Rgb, step: nat): (r: Rgb)
    ensures r.red <= c.red && r.green <= c.green && r.blue <= c.blue
    ensures (r.red == c.red - step || r.red == 0) && (r.green == c.green - step || r.green == 0) && (r.blue == c.blue - step || r.blue == 0)
  {
    Rgb(Down(c.red, step), Down(c.green, step), Down(c.blue, step))
  }

  /** A step on a canonical colour string: read, change every channel, write back. */
  function Brighter(h: string, step: nat): (r: string)
    requires IsColourCode(h)
    ensures IsColourCode(r)
    ensures HexToRgb(r) == Some(Lighten(HexToRgb(h).value, step))
  {
    HexToRgbOfRgbToHex(Lighten(HexToRgb(h).value, step));
    RgbToHex(Lighten(HexToRgb(h).value, step))
  }

  function Dimmer(h: string, step: nat): (r: string)
    requires IsColourCode(h)
    ensures IsColourCode(r)
    ensures HexToRgb(r) == Some(Darken(HexToRgb(h).value, step))
  {
    HexToRgbOfRgbToHex(Darken(HexToRgb(h).value, step));
    RgbToHex(Darken(HexToRgb(h).value, step))
  }

  /** Every channel of a lightened colour is `min(c + step, 255)`, never a wrapped value. */
  lemma LightenSaturates(c: Rgb, step: nat)
    ensures var r := Lighten(c, step);
      && (r.red == if c.red + step > 255 then 255 else c.red + step)
      && (r.green == if c.green + step > 255 then 255 else c.green + step)
      && (r.blue == if c.blue + step > 255 then 255 else c.blue + step)
  {
  }

  /** Every channel of a darkened colour is `max(c - step, 0)`, never a wrapped value. */
  lemma DarkenSaturates(c: Rgb, step: nat)
    ensures var r := Darken(c, step);
      && (r.red == if c.red - step < 0 then 0 else c.red - step)
      && (r.green == if c.green - step < 0 then 0 else c.green - step)
      && (r.blue == if c.blue - step < 0 then 0 else c.blue - step)
  {
  }

  /** `#000000`: the neutral body colour, and the one `deToggle` restores. */
  const Black: Rgb := Rgb(0, 0, 0)
  /** `#66ff66`: the body colour `isClicked` gives a box it toggles on. */
  const ToggledOn: Rgb := Rgb(102, 255, 102)

  /** The colour code of a channel triple, written out. */
  lemma CodeOf(r: Channel, g: Channel, b: Channel, h: string)
    requires h == "#" + ChannelToHex(r) + ChannelToHex(g) + ChannelToHex(b)
    ensures RgbToHex(Rgb(r, g, b)) == h && HexToRgb(h) == Some(Rgb(r, g, b))
  {
    HexToRgbOfRgbToHex(Rgb(r, g, b));
  }

  lemma ZeroHex()
    ensures ChannelToHex(0) == "00"
  {
  }

  /** The source's literal `'#000000'` is the code of `Black`. */
  lemma BlackCode()
    ensures RgbToHex(Black) == "#000000" && HexToRgb("#000000") == Some(Black)
  {
    ZeroHex();
    CodeOf(0, 0, 0, "#000000");
  }

  /** The source's literal `'#66ff66'` is the code of `ToggledOn`. */
  lemma ToggledOnCode()
    ensures RgbToHex(ToggledOn) == "#66ff66" && HexToRgb("#66ff66") == Some(ToggledOn)
  {
    ChannelToHexOfDigits('6', '6');
    ChannelToHexOfDigits('f', 'f');
    CodeOf(102, 255, 102, "#66ff66");
  }

  /** Stepping a colour code (read it, change every channel, write it back) is stepping the triple it encodes. */
  lemma BrighterOfCode(c: Rgb, step: nat)
    ensures Brighter(RgbToHex(c), step) == RgbToHex(Lighten(c, step))
  {
    HexToRgbOfRgbToHex(c);
  }

  lemma DimmerOfCode(c: Rgb, step: nat)
    ensures Dimmer(RgbToHex(c), step) == RgbToHex(Darken(c, step))
  {
    HexToRgbOfRgbToHex(c);
  }

  /** What `isClicked` leaves in a box it toggles on: `#66ff66` followed by the +50 hover step, `#98ff98`. */
  lemma ClickedOnColour()
    ensures RgbToHex(Lighten(ToggledOn, 50)) == "#98ff98"
  {
    assert Lighten(ToggledOn, 50) == Rgb(152, 255, 152);
    ChannelToHexOfDigits('9', '8');
    ChannelToHexOfDigits('f', 'f');
    CodeOf(152, 255, 152, "#98ff98");
  }

  /** What `isClicked` leaves in a box it toggles off: `#000000` followed by the +50 hover step, `#323232`. */
  lemma ClickedOffColour()
    ensures RgbToHex(Lighten(Black, 50)) == "#323232"
  {
    assert Lighten(Black, 50) == Rgb(50, 50, 50);
    ChannelToHexOfDigits('3', '2');
    CodeOf(50, 50, 50, "#323232");
  }
}
