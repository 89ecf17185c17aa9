/**
 * The colour string `get_theme_color` returns: `#` and two upper-case hex
 * digits per channel in R, G, B order, as palette's `{:X}` formatting of an
 * 8-bit RGB colour writes it; and its parser, which shows that nothing is lost.
 */
module HexColor {
  import opened Wrappers
  import opened Ints

  datatype Rgb = Rgb(r: Byte, g: Byte, b: Byte)

  /** The digits `{:X}` writes: 0-9 and upper-case A-F. */
  predicate IsHexDigit(ch: char)
  {
    '0' <= ch <= '9' || 'A' <= ch <= 'F'
  }

  /** A well-formed `#RRGGBB` string. */
  predicate IsColorString(s: string)
  {
    |s| == 7 && s[0] == '#' && forall i | 1 <= i < 7 :: IsHexDigit(s[i])
  }

  function HexDigit(d: nat): (ch: char)
    requires d < 16
    ensures IsHexDigit(ch)
  {
    if d < 10 then ('0' as int + d) as char else ('A' as int + d - 10) as char
  }

  /** The value of one upper-case hex digit; `None` for any other character. */
  function DigitValue(ch: char): (d: Option<nat>)
    ensures d.Some? <==> IsHexDigit(ch)
    ensures d.Some? ==> d.value < 16 && HexDigit(d.value) == ch
  {
    if '0' <= ch <= '9' then Some(ch as int - '0' as int)
    else if 'A' <= ch <= 'F' then Some(ch as int - 'A' as int + 10)
    else None
  }

  lemma DigitValueOfHexDigit(d: nat)
    requires d < 16
    ensures DigitValue(HexDigit(d)) == Some(d)
  {
  }

  /** One channel as two digits, zero-padded: `{:02X}`. */
  function Hex2(v: Byte): (s: string)
    ensures |s| == 2 && IsHexDigit(s[0]) && IsHexDigit(s[1])
  {
    [HexDigit(v / 16), HexDigit(v % 16)]
  }

  function FormatHex(c: Rgb): (s: string)
    ensures IsColorString(s)
  {
    "#" + Hex2(c.r) + Hex2(c.g) + Hex2(c.b)
  }

  /** The channel value written by two hex digits. */
  function ParseByte(hi: char, lo: char): (v: Option<Byte>)
    ensures v.Some? <==> IsHexDigit(hi) && IsHexDigit(lo)
  {
    match (DigitValue(hi), DigitValue(lo))
    case (Some(h), Some(l)) => Some(h * 16 + l)
    case _ => None
  }

  /** Reads a `#RRGGBB` string back; `None` for anything else. */
  function ParseColor(s: string): (c: Option<Rgb>)
    ensures c.Some? <==> IsColorString(s)
  {
    if |s| != 7 || s[0] != '#' then None
    else
      match (ParseByte(s[1], s[2]), ParseByte(s[3], s[4]), ParseByte(s[5], s[6]))
      case (Some(r), Some(g), Some(b)) => Some(Rgb(r, g, b))
      case _ => None
  }

  lemma ParseHex2(v: Byte)
    ensures ParseByte(Hex2(v)[0], Hex2(v)[1]) == Some(v)
  {
    DigitValueOfHexDigit(v / 16);
    DigitValueOfHexDigit(v % 16);
  }

  /** Parsing the formatted colour recovers the three channels. */
  lemma ParseFormat(c: Rgb)
    ensures ParseColor(FormatHex(c)) == Some(c)
  {
    var s := FormatHex(c);
    ParseHex2(c.r);
    ParseHex2(c.g);
    ParseHex2(c.b);
    assert s[1..3] == Hex2(c.r) && s[3..5] == Hex2(c.g) && s[5..7] == Hex2(c.b);
  }

  lemma FormatByte(hi: char, lo: char)
    requires IsHexDigit(hi) && IsHexDigit(lo)
    ensures Hex2(ParseByte(hi, lo).value) == [hi, lo]
  {
    var h, l := DigitValue(hi).value, DigitValue(lo).value;
    var v := h * 16 + l;
    assert v / 16 == h && v % 16 == l;
  }

  /** Every well-formed colour string is the formatting of the colour it parses to. */
  lemma FormatParse(s: string)
    requires IsColorString(s)
    ensures FormatHex(ParseColor(s).value) == s
  {
    var c := ParseColor(s).value;
    FormatByte(s[1], s[2]);
    FormatByte(s[3], s[4]);
    FormatByte(s[5], s[6]);
    assert FormatHex(c) == "#" + [s[1], s[2]] + [s[3], s[4]] + [s[5], s[6]];
  }

  /** Channels 10, 20 and 30 are written `#0A141E`: zero-padded, upper-case. */
  lemma FormatExample()
    ensures FormatHex(Rgb(10, 20, 30)) == "#0A141E"
  {
    assert Hex2(10) == "0A";
    assert Hex2(20) == "14";
    assert Hex2(30) == "1E";
  }

  /** Distinct colours give distinct strings. */
  lemma FormatInjective(c: Rgb, d: Rgb)
    requires FormatHex(c) == FormatHex(d)
    ensures c == d
  {
    ParseFormat(c);
    ParseFormat(d);
  }
}
