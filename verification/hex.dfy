/** `#rrggbb` formatting of a colour: each channel through Kotlin's
    `Int.toString(16)` (lower-case digits, a leading '-' for negatives, no
    leading zeros) and `padStart(2, '0')`, and a parser for the same format
    against which the formatting is proved. */
module Hex {
  import opened Colors

  predicate IsHexDigit(ch: char) {
    '0' <= ch <= '9' || 'a' <= ch <= 'f'
  }

  predicate AllHexDigits(s: string) {
    forall i :: 0 <= i < |s| ==> IsHexDigit(s[i])
  }

  function DigitValue(ch: char): (d: int)
    requires IsHexDigit(ch)
    ensures 0 <= d < 16
  {
    if '0' <= ch <= '9' then ch as int - '0' as int else ch as int - 'a' as int + 10
  }

  function DigitChar(d: int): (ch: char)
    requires 0 <= d < 16
    ensures IsHexDigit(ch) && DigitValue(ch) == d
  {
    if d < 10 then ('0' as int + d) as char else ('a' as int + d - 10) as char
  }

  function Pow16(k: nat): (p: nat)
    ensures p >= 1
  {
    if k == 0 then 1 else 16 * Pow16(k - 1)
  }

  /** Value of a string of hex digits, most significant first. */
  function HexValue(s: string): (v: nat)
    requires AllHexDigits(s)
    ensures v < Pow16(|s|)
  {
    if |s| == 0 then 0 else HexValue(s[..|s| - 1]) * 16 + DigitValue(s[|s| - 1])
  }

  /** `n.toString(16)` for a non-negative `n`: lower-case digits without leading zeros. */
  function NatToHex(n: nat): (s: string)
    ensures 1 <= |s| && AllHexDigits(s)
    ensures n < Pow16(|s|) && (|s| > 1 ==> Pow16(|s| - 1) <= n)
    decreases n
  {
    if n < 16 then [DigitChar(n)] else NatToHex(n / 16) + [DigitChar(n % 16)]
  }

  /** `v.toString(16)` for any `Int`: a negative value gets a '-' before the digits of its magnitude. */
  function IntToHex(v: int): (s: string)
    ensures 1 <= |s|
    ensures v >= 0 <==> AllHexDigits(s)
    ensures v < 0 <==> s[0] == '-'
  {
    if v < 0 then
      var s := "-" + NatToHex(-v);
      assert !IsHexDigit(s[0]);
      s
    else
      NatToHex(v)
  }

  /** Kotlin's `padStart`: `padChar` repeated on the left up to `length` characters. */
  function PadStart(s: string, length: nat, padChar: char): (r: string)
    ensures |r| >= |s| && |r| >= length
    ensures |r| > |s| ==> |r| == length
    ensures r[|r| - |s|..] == s
    ensures forall i :: 0 <= i < |r| - |s| ==> r[i] == padChar
  {
    if |s| >= length then s else seq(length - |s|, _ => padChar) + s
  }

  /** The field of one channel: for a channel in 0..255, two lower-case hex digits denoting it. */
  function ChannelHex(v: int): (field: string)
    ensures InChannelRange(v) ==> |field| == 2 && AllHexDigits(field) && HexValue(field) == v
  {
    ChannelHexField(v);
    PadStart(IntToHex(v), 2, '0')
  }

  function ScalarToHexString(c: Color): (s: string)
    ensures ValidColor(c) ==> |s| == 7 && s[0] == '#' && AllHexDigits(s[1..])
  {
    var red, green, blue := ChannelHex(c.r), ChannelHex(c.g), ChannelHex(c.b);
    HexDigitsConcat(red, green);
    HexDigitsConcat(red + green, blue);
    var s := "#" + (red + green + blue);
    s
  }

  lemma HexDigitsConcat(a: string, b: string)
    ensures AllHexDigits(a) && AllHexDigits(b) ==> AllHexDigits(a + b)
  {
  }

  /** Reads `#rrggbb` back into a colour; anything else is rejected. */
  function ParseHexColor(s: string): Option<Color> {
    if |s| == 7 && s[0] == '#' && AllHexDigits(s[1..]) then
      Some(Color(HexValue(s[1..3]), HexValue(s[3..5]), HexValue(s[5..7])))
    else
      None
  }

  // ---------------------------------------------------------------------------
  // Proofs

  lemma {:induction false} HexValueOfNatToHex(n: nat)
    ensures HexValue(NatToHex(n)) == n
    decreases n
  {
    var s := NatToHex(n);
    if n < 16 {
      assert s[..0] == [];
    } else {
      HexValueOfNatToHex(n / 16);
      assert s[..|s| - 1] == NatToHex(n / 16);
    }
  }

  /** A leading zero does not change the value. */
  lemma {:induction false} HexValueLeadingZero(s: string)
    requires AllHexDigits(s)
    ensures AllHexDigits("0" + s) && HexValue("0" + s) == HexValue(s)
    decreases |s|
  {
    var z := "0" + s;
    if |s| == 0 {
      assert z[..0] == [];
    } else {
      HexValueLeadingZero(s[..|s| - 1]);
      assert z[..|z| - 1] == "0" + s[..|s| - 1];
    }
  }

  /** Padding the hex digits of a channel in 0..255 to two characters keeps their value. */
  lemma ChannelHexField(v: int)
    ensures InChannelRange(v) ==>
              var field := PadStart(IntToHex(v), 2, '0');
              |field| == 2 && AllHexDigits(field) && HexValue(field) == v
  {
    if InChannelRange(v) {
      var digits := NatToHex(v);
      HexValueOfNatToHex(v);
      if |digits| == 1 {
        HexValueLeadingZero(digits);
        assert PadStart(IntToHex(v), 2, '0') == "0" + digits;
      }
    }
  }

  /** Where the three fields sit in `#rrggbb`. */
  lemma FieldPositions(red: string, green: string, blue: string)
    requires |red| == 2 && |green| == 2 && |blue| == 2
    ensures var s := "#" + (red + green + blue);
            |s| == 7 && s[1..] == red + green + blue && s[1..3] == red && s[3..5] == green && s[5..7] == blue
  {
  }

  /** Formatting then parsing gives back the colour. */
  lemma HexColorRoundTrip(c: Color)
    requires ValidColor(c)
    ensures ParseHexColor(ScalarToHexString(c)) == Some(c)
  {
    var red, green, blue := ChannelHex(c.r), ChannelHex(c.g), ChannelHex(c.b);
    FieldPositions(red, green, blue);
    assert ScalarToHexString(c) == "#" + (red + green + blue);
  }

  /** Zero padding shows on small channels: 10 is written "0a". */
  lemma ChannelHexExample()
    ensures ChannelHex(10) == "0a"
  {
    assert IntToHex(10) == [DigitChar(10)] == "a";
    assert seq(1, _ => '0') == "0";
  }
}
