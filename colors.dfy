/** The technician colour palette and the hexadecimal colour helpers. */
module Colors {
  import opened Wrappers
  import opened Seqs
  import opened Text

  datatype PaletteEntry = PaletteEntry(hex: string, name: string)

  /** `TECHNICIAN_COLORS`, in order. */
  const Palette: seq<PaletteEntry> := [
    PaletteEntry("#E53935", "Rouge"),
    PaletteEntry("#D81B60", "Rose"),
    PaletteEntry("#8E24AA", "Violet"),
    PaletteEntry("#3949AB", "Indigo"),
    PaletteEntry("#1E88E5", "Bleu"),
    PaletteEntry("#00897B", "Teal"),
    PaletteEntry("#43A047", "Vert"),
    PaletteEntry("#FDD835", "Jaune"),
    PaletteEntry("#FB8C00", "Orange"),
    PaletteEntry("#6D4C41", "Marron")
  ]

  /** The palette has ten entries with pairwise different hex strings. */
  lemma PaletteDistinct()
    ensures |Palette| == 10
    ensures forall i, j :: 0 <= i < j < |Palette| ==> Palette[i].hex != Palette[j].hex
  {
    forall i, j | 0 <= i < j < |Palette| ensures Palette[i].hex != Palette[j].hex {
      assert Palette[i].hex[1] != Palette[j].hex[1] || Palette[i].hex[2] != Palette[j].hex[2];
    }
  }

  /** `getAutoColor(index)`: the palette entry at `index` modulo 10. A negative index
    * would read past the palette in the source, so indices are natural numbers here. */
  function GetAutoColor(index: nat): (color: string)
    ensures IsValidPaletteColor(color)
  {
    Palette[index % |Palette|].hex
  }

  /** `isValidPaletteColor(color)`: exact, case-sensitive comparison with some entry. */
  predicate IsValidPaletteColor(color: string) {
    exists k :: 0 <= k < |Palette| && Palette[k].hex == color
  }

  /** No palette colour is the empty string. */
  lemma PaletteNonEmpty(k: nat)
    requires k < |Palette|
    ensures |Palette[k].hex| == 7
  {
  }

  /** The automatic colour cycles with period 10, and the first ten indices use each
    * palette colour once. */
  lemma AutoColorCycles(index: nat)
    ensures GetAutoColor(index + 10) == GetAutoColor(index)
    ensures index < 10 ==> GetAutoColor(index) == Palette[index].hex
    ensures forall j: nat :: index < j < 10 ==> GetAutoColor(index) != GetAutoColor(j)
  {
    assert (index + 10) % 10 == index % 10;
    PaletteDistinct();
    forall j: nat | index < j < 10 ensures GetAutoColor(index) != GetAutoColor(j) {
      assert index % 10 == index && j % 10 == j;
    }
  }

  /** The palette colours are exactly the automatic colours. */
  lemma ValidIsAutoColor(color: string)
    ensures IsValidPaletteColor(color) <==> exists k: nat :: k < 10 && GetAutoColor(k) == color
  {
    if IsValidPaletteColor(color) {
      var k :| 0 <= k < |Palette| && Palette[k].hex == color;
      assert k % |Palette| == k;
      assert GetAutoColor(k) == color;
    }
  }

  /** Membership is case-sensitive: the lower-case spelling of red is not a palette colour. */
  lemma PaletteCaseSensitive()
    ensures IsValidPaletteColor("#E53935")
    ensures !IsValidPaletteColor("#e53935")
  {
    assert Palette[0].hex == "#E53935";
    forall k | 0 <= k < |Palette| ensures Palette[k].hex != "#e53935" {
      assert Palette[k].hex[1] != 'e';
    }
  }

  datatype Rgb = Rgb(r: nat, g: nat, b: nat)

  predicate IsByte(c: Rgb) {
    c.r < 256 && c.g < 256 && c.b < 256
  }

  /** A character of the class `[a-f\d]` under the `i` flag. */
  predicate IsHexDigit(c: char) {
    '0' <= c <= '9' || 'a' <= c <= 'f' || 'A' <= c <= 'F'
  }

  function HexValue(c: char): (v: nat)
    requires IsHexDigit(c)
    ensures v < 16
  {
    if '0' <= c <= '9' then c as int - '0' as int
    else if 'a' <= c <= 'f' then c as int - 'a' as int + 10
    else c as int - 'A' as int + 10
  }

  /** The hexadecimal digit `toString(16)` writes (lower case). */
  function HexChar(d: nat): (c: char)
    requires d < 16
    ensures IsHexDigit(c) && HexValue(c) == d
  {
    if d < 10 then ('0' as int + d) as char else ('a' as int + d - 10) as char
  }

  /** `parseInt(pair, 16)` of two hexadecimal digits. */
  function HexPair(hi: char, lo: char): (v: nat)
    requires IsHexDigit(hi) && IsHexDigit(lo)
    ensures v < 256
  {
    16 * HexValue(hi) + HexValue(lo)
  }

  /** The pattern `^#?([a-f\d]{2})([a-f\d]{2})([a-f\d]{2})$` with the `i` flag. */
  predicate MatchesHexPattern(s: string) {
    || (|s| == 6 && forall k :: 0 <= k < 6 ==> IsHexDigit(s[k]))
    || (|s| == 7 && s[0] == '#' && forall k :: 1 <= k < 7 ==> IsHexDigit(s[k]))
  }

  /** `hexToRgb(hex)`: None is the source's `null`. */
  function HexToRgb(hex: string): (res: Option<Rgb>)
    ensures res.Some? <==> MatchesHexPattern(hex)
    ensures res.Some? ==> IsByte(res.value)
  {
    var d := if |hex| > 0 && hex[0] == '#' then hex[1..] else hex;
    if |d| == 6 && forall k :: 0 <= k < 6 ==> IsHexDigit(d[k]) then
      Some(Rgb(HexPair(d[0], d[1]), HexPair(d[2], d[3]), HexPair(d[4], d[5])))
    else
      None
  }

  /** `n.toString(16)`. */
  function HexString(n: nat): (s: string)
    ensures |s| >= 1
  {
    if n < 16 then [HexChar(n)] else HexString(n / 16) + [HexChar(n % 16)]
  }

  /** `n.toString(16).padStart(2, '0')` is the two-digit form of every byte. */
  lemma HexByte(n: nat)
    requires n < 256
    ensures PadStart(HexString(n), 2, '0') == [HexChar(n / 16), HexChar(n % 16)]
  {
    if n >= 16 {
      assert HexString(n / 16) == [HexChar(n / 16)];
    } else {
      assert Repeat('0', 1) == [HexChar(0)];
    }
  }

  /** The `#rrggbb` string the arithmetic branch of `getLighterColor` writes. */
  function FormatHex(c: Rgb): string {
    "#" + PadStart(HexString(c.r), 2, '0') + PadStart(HexString(c.g), 2, '0')
        + PadStart(HexString(c.b), 2, '0')
  }

  /** Reading back a formatted colour gives the colour. */
  lemma FormatRoundTrip(c: Rgb)
    requires IsByte(c)
    ensures HexToRgb(FormatHex(c)) == Some(c)
  {
    HexByte(c.r);
    HexByte(c.g);
    HexByte(c.b);
    PairOfByte(c.r);
    PairOfByte(c.g);
    PairOfByte(c.b);
    var s := FormatHex(c);
    assert s == ['#', HexChar(c.r / 16), HexChar(c.r % 16), HexChar(c.g / 16), HexChar(c.g % 16),
                 HexChar(c.b / 16), HexChar(c.b % 16)];
    assert s[1..] == s[1..7];
  }

  /** The two digits of a byte read back as the byte. */
  lemma PairOfByte(n: nat)
    requires n < 256
    ensures HexPair(HexChar(n / 16), HexChar(n % 16)) == n
  {
  }

  /** The `i` flag: lower-casing the input changes nothing in the result. */
  lemma HexCaseInsensitive(hex: string)
    ensures HexToRgb(ToLower(hex)) == HexToRgb(hex)
  {
    var low := ToLower(hex);
    forall k | 0 <= k < |hex|
      ensures IsHexDigit(low[k]) <==> IsHexDigit(hex[k])
      ensures IsHexDigit(hex[k]) ==> HexValue(low[k]) == HexValue(hex[k])
    {
      LowerHexDigit(hex[k]);
    }
    if |hex| > 0 {
      LowerHexDigit(hex[0]);
    }
  }

  /** Lower-casing keeps a hexadecimal digit's value, makes no other character one and
    * leaves `#` alone. */
  lemma LowerHexDigit(c: char)
    ensures IsHexDigit(LowerChar(c)) <==> IsHexDigit(c)
    ensures IsHexDigit(c) ==> HexValue(LowerChar(c)) == HexValue(c)
    ensures LowerChar(c) == '#' <==> c == '#'
  {
  }

  /** `getLighterColor(hex, factor)`. The blend of each component with white is
    * floating-point arithmetic and is the parameter `blend`; an unreadable input is
    * returned unchanged. */
  function GetLighterColor(hex: string, blend: Rgb -> Rgb): (r: string)
    ensures HexToRgb(hex).None? ==> r == hex
    ensures HexToRgb(hex).Some? && IsByte(blend(HexToRgb(hex).value)) ==>
      HexToRgb(r) == Some(blend(HexToRgb(hex).value))
  {
    match HexToRgb(hex)
    case None => hex
    case Some(c) =>
      var lighter := blend(c);
      assert IsByte(lighter) ==> HexToRgb(FormatHex(lighter)) == Some(lighter) by {
        if IsByte(lighter) {
          FormatRoundTrip(lighter);
        }
      }
      FormatHex(lighter)
  }

  /** Every palette colour is a readable hex colour. */
  lemma PaletteReadable(k: nat)
    requires k < |Palette|
    ensures HexToRgb(Palette[k].hex).Some?
  {
    match k {
      case 0 => HashAndSixDigits("#E53935");
      case 1 => HashAndSixDigits("#D81B60");
      case 2 => HashAndSixDigits("#8E24AA");
      case 3 => HashAndSixDigits("#3949AB");
      case 4 => HashAndSixDigits("#1E88E5");
      case 5 => HashAndSixDigits("#00897B");
      case 6 => HashAndSixDigits("#43A047");
      case 7 => HashAndSixDigits("#FDD835");
      case 8 => HashAndSixDigits("#FB8C00");
      case 9 => HashAndSixDigits("#6D4C41");
    }
  }

  lemma HashAndSixDigits(s: string)
    requires |s| == 7 && s[0] == '#'
    requires IsHexDigit(s[1]) && IsHexDigit(s[2]) && IsHexDigit(s[3])
    requires IsHexDigit(s[4]) && IsHexDigit(s[5]) && IsHexDigit(s[6])
    ensures MatchesHexPattern(s)
  {
    forall k | 1 <= k < 7 ensures IsHexDigit(s[k]) {
    }
  }
}
