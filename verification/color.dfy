/** `rgbToHex`: a colour in CSS hex notation, `#RRGGBB` when alpha is exactly 1
    and `#RRGGBBAA` otherwise (section 5.2 of CSS Color Module Level 4). */
module Color {
  import opened Strings

  /** A channel after `Math.round(value * 255)`. */
  type Byte = n: int | 0 <= n < 256

  /** Alpha as the design tool gives it. The hex form depends on the test
      `a !== 1` on the unrounded value, so the value 1 is kept apart from every
      other value, which is carried as its rounded byte (0.999 is `Partial(255)`). */
  datatype Alpha = Opaque | Partial(rounded: Byte)

  datatype Rgba = Rgba(r: Byte, g: Byte, b: Byte, a: Alpha)

  /** The digits `Number.prototype.toString(16)` writes: lower case. */
  predicate IsHexDigit(c: char) {
    '0' <= c <= '9' || 'a' <= c <= 'f'
  }

  function DigitValue(c: char): (d: int)
    requires IsHexDigit(c)
    ensures 0 <= d < 16
  {
    if c <= '9' then c as int - '0' as int else c as int - 'a' as int + 10
  }

  function HexDigit(d: int): (c: char)
    requires 0 <= d < 16
    ensures IsHexDigit(c) && DigitValue(c) == d
  {
    if d < 10 then ('0' as int + d) as char else ('a' as int + d - 10) as char
  }

  /** The number a string of hex digits denotes. */
  function HexValue(s: string): nat
    requires forall i :: 0 <= i < |s| ==> IsHexDigit(s[i])
  {
    if s == [] then 0 else HexValue(s[..|s| - 1]) * 16 + DigitValue(s[|s| - 1])
  }

  /** `n.toString(16)`: the base-16 digits of `n` without leading zeros. */
  function ToBase16(n: nat): (s: string)
    ensures n < 16 ==> |s| == 1
    ensures 16 <= n < 256 ==> |s| == 2
  {
    if n < 16 then [HexDigit(n)]
    else ToBase16(n / 16) + [HexDigit(n % 16)]
  }

  lemma {:induction false} ToBase16Digits(n: nat)
    ensures var s := ToBase16(n);
      && 1 <= |s|
      && (forall i :: 0 <= i < |s| ==> IsHexDigit(s[i]))
      && HexValue(s) == n
      && (|s| > 1 ==> s[0] != '0')
  {
    if n >= 16 {
      ToBase16Digits(n / 16);
      var s := ToBase16(n);
      assert s[..|s| - 1] == ToBase16(n / 16);
    }
  }

  /** The local `toHex`: `v.toString(16)`, padded with a `0` to two digits. */
  function PaddedHex(v: Byte): string
  {
    var h := ToBase16(v);
    if |h| == 1 then "0" + h else h
  }

  /** One channel as its two hex digits, high digit first. */
  function ToHex(v: Byte): (s: string)
    ensures |s| == 2 && IsHexDigit(s[0]) && IsHexDigit(s[1])
    ensures DigitValue(s[0]) * 16 + DigitValue(s[1]) == v
  {
    [HexDigit(v / 16), HexDigit(v % 16)]
  }

  /** Padding `toString(16)` to two digits gives exactly the two digits of the
      channel: a single digit only for values below 16, and then the padding
      `0` is the high digit. */
  lemma PaddedHexIsToHex(v: Byte)
    ensures PaddedHex(v) == ToHex(v)
    ensures v < 16 ==> PaddedHex(v)[0] == '0'
  {
    var h := ToBase16(v);
    ToBase16Digits(v);
    if |h| == 1 {
      assert h[..0] == [];
      assert HexValue(h) == DigitValue(h[0]);
      DigitInjective(h[0], HexDigit(v % 16));
    } else {
      assert h[..1] == [h[0]];
      assert h[..1][..0] == [];
      assert HexValue(h[..1]) == DigitValue(h[0]);
      assert HexValue(h) == DigitValue(h[0]) * 16 + DigitValue(h[1]);
      DigitInjective(h[0], HexDigit(v / 16));
      DigitInjective(h[1], HexDigit(v % 16));
    }
  }

  /** `rgbToHex`: `#`, then red, green and blue, then alpha only when it is not exactly 1. */
  function RgbToHex(c: Rgba): (s: string)
    ensures |s| == (if c.a.Opaque? then 7 else 9)
    ensures s[0] == '#'
  {
    "#" + ToHex(c.r) + ToHex(c.g) + ToHex(c.b) + (if c.a.Partial? then ToHex(c.a.rounded) else "")
  }

  /** Everything after the `#` is a hex digit. */
  lemma RgbToHexDigits(c: Rgba)
    ensures forall i :: 1 <= i < |RgbToHex(c)| ==> IsHexDigit(RgbToHex(c)[i])
  {
    var s := RgbToHex(c);
    var r, g, b := ToHex(c.r), ToHex(c.g), ToHex(c.b);
    assert s[1] == r[0] && s[2] == r[1];
    assert s[3] == g[0] && s[4] == g[1];
    assert s[5] == b[0] && s[6] == b[1];
    if c.a.Partial? {
      var a := ToHex(c.a.rounded);
      assert s[7] == a[0] && s[8] == a[1];
    }
  }

  /** The byte written by the two hex digits at `s[i]` and `s[i + 1]`. */
  function ByteAt(s: string, i: nat): Byte
    requires i + 1 < |s| && IsHexDigit(s[i]) && IsHexDigit(s[i + 1])
  {
    DigitValue(s[i]) * 16 + DigitValue(s[i + 1])
  }

  /** Reads CSS hex notation as `rgbToHex` writes it; the partner of `RgbToHex`. */
  function ParseHex(s: string): Option<Rgba>
  {
    if (|s| == 7 || |s| == 9) && s[0] == '#' && forall i :: 1 <= i < |s| ==> IsHexDigit(s[i]) then
      Some(Rgba(ByteAt(s, 1), ByteAt(s, 3), ByteAt(s, 5), if |s| == 7 then Opaque else Partial(ByteAt(s, 7))))
    else None
  }

  /** Every colour is recovered from its hex form: each channel is written as
      its own two digits and the alpha pair is present exactly when alpha is not 1. */
  lemma HexRoundTrip(c: Rgba)
    ensures ParseHex(RgbToHex(c)) == Some(c)
  {
    RgbToHexDigits(c);
    var s := RgbToHex(c);
    var r, g, b := ToHex(c.r), ToHex(c.g), ToHex(c.b);
    assert s[1] == r[0] && s[2] == r[1];
    assert s[3] == g[0] && s[4] == g[1];
    assert s[5] == b[0] && s[6] == b[1];
    if c.a.Partial? {
      var a := ToHex(c.a.rounded);
      assert s[7] == a[0] && s[8] == a[1];
    }
  }

  lemma {:induction false} ToHexAt(s: string, i: nat)
    requires i + 1 < |s| && IsHexDigit(s[i]) && IsHexDigit(s[i + 1])
    ensures ToHex(ByteAt(s, i)) == s[i..i + 2]
  {
    var h := ToHex(ByteAt(s, i));
    assert DigitValue(h[0]) == DigitValue(s[i]) && DigitValue(h[1]) == DigitValue(s[i + 1]);
    DigitInjective(h[0], s[i]);
    DigitInjective(h[1], s[i + 1]);
  }

  lemma DigitInjective(x: char, y: char)
    requires IsHexDigit(x) && IsHexDigit(y) && DigitValue(x) == DigitValue(y)
    ensures x == y
  {
  }

  /** Conversely, every string `ParseHex` accepts is exactly what `rgbToHex`
      writes for the colour it denotes: the hex form is canonical. */
  lemma ParseHexCanonical(s: string)
    requires ParseHex(s).Some?
    ensures RgbToHex(ParseHex(s).value) == s
  {
    assert |s| == 7 || |s| == 9;
    assert forall i :: 1 <= i < |s| ==> IsHexDigit(s[i]);
    var c := ParseHex(s).value;
    assert c.r == ByteAt(s, 1) && c.g == ByteAt(s, 3) && c.b == ByteAt(s, 5);
    ToHexAt(s, 1);
    ToHexAt(s, 3);
    ToHexAt(s, 5);
    var tail := if c.a.Partial? then ToHex(c.a.rounded) else "";
    if |s| == 9 {
      assert c.a == Partial(ByteAt(s, 7));
      ToHexAt(s, 7);
      assert tail == s[7..];
    } else {
      assert tail == s[7..];
    }
    SplitAtChannels(s);
    assert s[..1] == "#";
  }

  lemma SplitAtChannels(s: string)
    requires |s| >= 7
    ensures s == s[..1] + s[1..3] + s[3..5] + s[5..7] + s[7..]
  {
    assert s[..3] == s[..1] + s[1..3];
    assert s[..5] == s[..3] + s[3..5];
    assert s[..7] == s[..5] + s[5..7];
    assert s == s[..7] + s[7..];
  }
}
