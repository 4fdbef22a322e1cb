/**
 * Colour parsing of the Plasma background (components/ui/Plasma.tsx, `hexToRgb`).
 * A colour is six hexadecimal digits, optionally after one '#', in either case;
 * each digit pair is a byte and becomes a channel byte / 255.
 */
module PlasmaColor {
  import opened Wrappers

  /** An RGB triple as the shader receives it. */
  datatype Rgb = Rgb(r: real, g: real, b: real)

  /** What `hexToRgb` returns for anything that is not a six-digit hex colour. */
  const Fallback: Rgb := Rgb(1.0, 0.5, 0.2)

  predicate InUnitCube(c: Rgb) {
    0.0 <= c.r <= 1.0 && 0.0 <= c.g <= 1.0 && 0.0 <= c.b <= 1.0
  }

  /** The character class `[a-f\d]` under the case-insensitive flag. */
  predicate IsHexDigit(c: char) {
    '0' <= c <= '9' || 'a' <= c <= 'f' || 'A' <= c <= 'F'
  }

  predicate AllHex(s: string) {
    forall i :: 0 <= i < |s| ==> IsHexDigit(s[i])
  }

  /** The value of one hex digit, as `parseInt(_, 16)` reads it. */
  function HexDigitValue(c: char): (v: nat)
    requires IsHexDigit(c)
    ensures v < 16
  {
    if '0' <= c <= '9' then c as int - '0' as int
    else if 'a' <= c <= 'f' then c as int - 'a' as int + 10
    else c as int - 'A' as int + 10
  }

  /** `parseInt(pair, 16)` for a two-digit group. */
  function ParseByte(pair: string): (v: nat)
    requires |pair| == 2 && AllHex(pair)
    ensures v < 256
  {
    16 * HexDigitValue(pair[0]) + HexDigitValue(pair[1])
  }

  /** The three capture groups of a successful match. */
  datatype HexMatch = HexMatch(g1: string, g2: string, g3: string)

  /**
   * `/^#?([a-f\d]{2})([a-f\d]{2})([a-f\d]{2})$/i.exec(hex)`: the pattern matches exactly
   * the strings d and "#" + d where d is six hex digits, and the groups split d in pairs.
   */
  function ExecHexPattern(hex: string): (m: Option<HexMatch>)
    ensures m.Some? ==>
      && |m.value.g1| == 2 && |m.value.g2| == 2 && |m.value.g3| == 2
      && var d := m.value.g1 + m.value.g2 + m.value.g3;
         AllHex(d) && (hex == d || hex == "#" + d)
    ensures m.None? ==> forall d :: |d| == 6 && AllHex(d) ==> hex != d && hex != "#" + d
  {
    var digits := if |hex| > 0 && hex[0] == '#' then hex[1..] else hex;
    if |digits| == 6 && AllHex(digits) then
      assert digits == digits[0..2] + digits[2..4] + digits[4..6];
      Some(HexMatch(digits[0..2], digits[2..4], digits[4..6]))
    else
      assert forall d :: |d| == 6 && AllHex(d) && hex == "#" + d ==> digits == d;
      None
  }

  /**
   * `hexToRgb`: a matching string gives its three bytes scaled by 1/255; anything else gives
   * the fallback. No matching string yields the fallback (0.5 is not a multiple of 1/255),
   * so the fallback is returned exactly when the pattern fails.
   */
  function HexToRgb(hex: string): (c: Rgb)
    ensures InUnitCube(c)
    ensures c == Fallback <==> ExecHexPattern(hex).None?
  {
    match ExecHexPattern(hex)
    case None => Fallback
    case Some(m) =>
      var g := ParseByte(m.g2);
      assert 2 * g != 255;
      assert g as real / 255.0 != 0.5;
      Rgb(ParseByte(m.g1) as real / 255.0, g as real / 255.0, ParseByte(m.g3) as real / 255.0)
  }

  // ----- the encoding side: bytes written as hex digits -----

  /** The lower-case digit for a value below 16. */
  function HexDigitChar(v: nat): (c: char)
    requires v < 16
    ensures IsHexDigit(c) && HexDigitValue(c) == v
    ensures !('A' <= c <= 'F')
  {
    if v < 10 then ('0' as int + v) as char else ('a' as int + v - 10) as char
  }

  /** A byte as two lower-case hex digits; `ParseByte` reads it back. */
  function EncodeByte(b: nat): (s: string)
    requires b < 256
    ensures |s| == 2 && AllHex(s) && ParseByte(s) == b
  {
    [HexDigitChar(b / 16), HexDigitChar(b % 16)]
  }

  function EncodeColor(r: nat, g: nat, b: nat, withHash: bool): (s: string)
    requires r < 256 && g < 256 && b < 256
  {
    (if withHash then "#" else "") + EncodeByte(r) + EncodeByte(g) + EncodeByte(b)
  }

  /** Round trip: writing three bytes as a hex colour and parsing it gives the bytes over 255. */
  lemma HexToRgbOfEncoded(r: nat, g: nat, b: nat, withHash: bool)
    requires r < 256 && g < 256 && b < 256
    ensures HexToRgb(EncodeColor(r, g, b, withHash))
            == Rgb(r as real / 255.0, g as real / 255.0, b as real / 255.0)
  {
    var d := EncodeByte(r) + EncodeByte(g) + EncodeByte(b);
    var s := EncodeColor(r, g, b, withHash);
    assert s == (if withHash then "#" + d else d);
    assert AllHex(d);
    var m := ExecHexPattern(s);
    assert m.Some?;
    var d' := m.value.g1 + m.value.g2 + m.value.g3;
    assert d' == d by {
      if withHash {
        assert s[0] == '#' && !IsHexDigit(s[0]);
        assert s != d';
      } else {
        assert IsHexDigit(s[0]);
        assert ("#" + d')[0] == '#';
        assert s != "#" + d';
      }
    }
    assert m.value.g1 == d'[0..2] == EncodeByte(r);
    assert m.value.g2 == d'[2..4] == EncodeByte(g);
    assert m.value.g3 == d'[4..6] == EncodeByte(b);
  }

  // ----- case insensitivity -----

  function UpperAscii(c: char): char {
    if 'a' <= c <= 'z' then (c as int - 32) as char else c
  }

  function ToUpperAscii(s: string): (u: string)
    ensures |u| == |s| && forall i :: 0 <= i < |s| ==> u[i] == UpperAscii(s[i])
  {
    seq(|s|, i requires 0 <= i < |s| => UpperAscii(s[i]))
  }

  lemma UpperHexDigit(c: char)
    ensures IsHexDigit(UpperAscii(c)) <==> IsHexDigit(c)
    ensures IsHexDigit(c) ==> HexDigitValue(UpperAscii(c)) == HexDigitValue(c)
  {
  }

  lemma UpperAllHex(s: string)
    ensures AllHex(ToUpperAscii(s)) <==> AllHex(s)
  {
    var u := ToUpperAscii(s);
    forall i | 0 <= i < |s| ensures IsHexDigit(u[i]) <==> IsHexDigit(s[i]) {
      UpperHexDigit(s[i]);
    }
  }

  lemma UpperParseByte(p: string)
    requires |p| == 2 && AllHex(p)
    ensures AllHex(ToUpperAscii(p)) && ParseByte(ToUpperAscii(p)) == ParseByte(p)
  {
    UpperAllHex(p);
    UpperHexDigit(p[0]);
    UpperHexDigit(p[1]);
  }

  /** Upper-casing keeps a string matching or not, and upper-cases the groups of a match. */
  lemma ExecHexPatternUpper(hex: string)
    ensures ExecHexPattern(ToUpperAscii(hex)).None? <==> ExecHexPattern(hex).None?
    ensures ExecHexPattern(hex).Some? ==>
      var m := ExecHexPattern(hex).value;
      ExecHexPattern(ToUpperAscii(hex)).value
        == HexMatch(ToUpperAscii(m.g1), ToUpperAscii(m.g2), ToUpperAscii(m.g3))
  {
    var u := ToUpperAscii(hex);
    var digits := if |hex| > 0 && hex[0] == '#' then hex[1..] else hex;
    var udigits := if |u| > 0 && u[0] == '#' then u[1..] else u;
    assert |hex| > 0 ==> (u[0] == '#' <==> hex[0] == '#');
    assert udigits == ToUpperAscii(digits);
    UpperAllHex(digits);
    if |digits| == 6 && AllHex(digits) {
      assert ToUpperAscii(digits[0..2]) == udigits[0..2];
      assert ToUpperAscii(digits[2..4]) == udigits[2..4];
      assert ToUpperAscii(digits[4..6]) == udigits[4..6];
    }
  }

  /** The pattern carries the `i` flag: upper-casing a string never changes what `hexToRgb` returns. */
  lemma HexToRgbCaseInsensitive(hex: string)
    ensures HexToRgb(ToUpperAscii(hex)) == HexToRgb(hex)
  {
    ExecHexPatternUpper(hex);
    var m := ExecHexPattern(hex);
    if m.Some? {
      UpperParseByte(m.value.g1);
      UpperParseByte(m.value.g2);
      UpperParseByte(m.value.g3);
    }
  }

  // ----- the shapes that fall back -----

  /** Three-digit shorthand, eight digits (an alpha byte), a non-hex digit and a doubled '#' all fall back. */
  lemma NonSixDigitFormsFallBack()
    ensures HexToRgb("#93C") == Fallback
    ensures HexToRgb("#93C5FDFF") == Fallback
    ensures HexToRgb("#93C5FG") == Fallback
    ensures HexToRgb("##93C5FD") == Fallback
  {
    assert !IsHexDigit('G');
    assert "##93C5FD"[1..] == "#93C5FD";
    assert !IsHexDigit("#93C5FD"[0]);
  }

  /** The default palette colour "#93C5FD" is (147, 197, 253) / 255. */
  lemma DefaultStopColor()
    ensures HexToRgb("#93C5FD") == Rgb(147.0 / 255.0, 197.0 / 255.0, 253.0 / 255.0)
  {
    var d := "#93C5FD"[1..];
    assert d == "93C5FD";
    assert AllHex(d) by {
      assert IsHexDigit(d[0]) && IsHexDigit(d[1]) && IsHexDigit(d[2]);
      assert IsHexDigit(d[3]) && IsHexDigit(d[4]) && IsHexDigit(d[5]);
    }
    assert d[0..2] == "93" && d[2..4] == "C5" && d[4..6] == "FD";
    assert ParseByte("93") == 147 && ParseByte("C5") == 197 && ParseByte("FD") == 253;
  }
}
