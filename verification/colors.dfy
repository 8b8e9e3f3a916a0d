/** RGB colours as the palette code handles them (an OpenCV Scalar whose channels
    0, 1, 2 are red, green and blue), the per-channel derivations used by the
    Monochromatic and Complementary palettes, and list lookup by first occurrence. */
module Colors {

  datatype Option<T> = None | Some(value: T)

  datatype Color = Color(r: int, g: int, b: int)

  const MaxChannel: int := 255

  /** Amount added or subtracted per channel by the Monochromatic palette. */
  const ShadeStep: int := 50

  predicate InChannelRange(v: int) {
    0 <= v <= MaxChannel
  }

  predicate ValidColor(c: Color) {
    InChannelRange(c.r) && InChannelRange(c.g) && InChannelRange(c.b)
  }

  predicate AllValid(colors: seq<Color>) {
    forall i :: 0 <= i < |colors| ==> ValidColor(colors[i])
  }

  predicate Distinct<T(==)>(s: seq<T>) {
    forall i, j :: 0 <= i < j < |s| ==> s[i] != s[j]
  }

  // ---------------------------------------------------------------------------
  // Complement

  /** The complement `255 - c` of each channel. */
  function Complement(c: Color): (k: Color)
    ensures k.r + c.r == MaxChannel && k.g + c.g == MaxChannel && k.b + c.b == MaxChannel
    ensures ValidColor(c) ==> ValidColor(k)
  {
    Color(MaxChannel - c.r, MaxChannel - c.g, MaxChannel - c.b)
  }

  lemma ComplementInvolution(c: Color)
    ensures Complement(Complement(c)) == c
  {
  }

  // ---------------------------------------------------------------------------
  // Darker and lighter shades

  /** `max(0, v - 50)`: a channel 50 darker, never below 0. */
  function Darken(v: int): (d: int)
    ensures d >= 0 && d >= v - ShadeStep
    ensures d == 0 || d == v - ShadeStep
    ensures v >= 0 ==> d <= v
    ensures v <= MaxChannel ==> d <= MaxChannel
  {
    if v - ShadeStep > 0 then v - ShadeStep else 0
  }

  /** `min(255, v + 50)`: a channel 50 lighter, never above 255. */
  function Lighten(v: int): (l: int)
    ensures l <= MaxChannel && l <= v + ShadeStep
    ensures l == MaxChannel || l == v + ShadeStep
    ensures v <= MaxChannel ==> v <= l
    ensures v >= 0 ==> l >= 0
  {
    if v + ShadeStep < MaxChannel then v + ShadeStep else MaxChannel
  }

  function DarkerColor(c: Color): (d: Color)
    ensures ValidColor(c) ==> ValidColor(d) && d.r <= c.r && d.g <= c.g && d.b <= c.b
  {
    Color(Darken(c.r), Darken(c.g), Darken(c.b))
  }

  function LighterColor(c: Color): (l: Color)
    ensures ValidColor(c) ==> ValidColor(l) && c.r <= l.r && c.g <= l.g && c.b <= l.b
  {
    Color(Lighten(c.r), Lighten(c.g), Lighten(c.b))
  }

  /** The two clamping examples: near black darkens to black, near white lightens to white. */
  lemma ShadeClampExamples()
    ensures DarkerColor(Color(10, 10, 10)) == Color(0, 0, 0)
    ensures LighterColor(Color(240, 240, 240)) == Color(255, 255, 255)
  {
  }

  // ---------------------------------------------------------------------------
  // List lookup

  /** Kotlin's `List.indexOf`: the position of the first occurrence of `x`, or -1. */
  function IndexOf<T(==)>(s: seq<T>, x: T): (i: int)
    ensures -1 <= i < |s|
    ensures i == -1 <==> x !in s
    ensures 0 <= i ==> s[i] == x && forall j :: 0 <= j < i ==> s[j] != x
  {
    if |s| == 0 then -1
    else if s[0] == x then 0
    else
      var k := IndexOf(s[1..], x);
      if k < 0 then -1 else k + 1
  }

  /** In a list without repetitions, every element is found at its own position. */
  lemma IndexOfDistinct<T>(s: seq<T>, k: int)
    requires Distinct(s) && 0 <= k < |s|
    ensures IndexOf(s, s[k]) == k
  {
  }
}
