/** Relative luminance, the contrast ratio between two colours, and the choice of a
    legible text colour among candidates (the WCAG 2.x contrast-ratio formula with
    the AA normal-text threshold 4.5, applied to channels that are scaled to [0, 1]
    but not linearised). */
module Contrast {
  import opened Colors

  /** Contrast a text colour must exceed against both the background and the accent. */
  const MinContrast: real := 4.5

  /** Weighted sum `0.2126 r' + 0.7152 g' + 0.0722 b'` of the channels scaled to [0, 1]. */
  function Luminance(c: Color): (l: real)
    ensures ValidColor(c) ==> 0.0 <= l <= 1.0
    ensures c.r == c.g == c.b ==> l == c.r as real / 255.0
  {
    0.2126 * (c.r as real / 255.0) + 0.7152 * (c.g as real / 255.0) + 0.0722 * (c.b as real / 255.0)
  }

  function MaxReal(x: real, y: real): real { if x >= y then x else y }

  function MinReal(x: real, y: real): real { if x <= y then x else y }

  /** A ratio of shifted luminances whose numerator is at least its denominator is
      at least 1, and at most 21 when both lie in [0.05, 1.05]. */
  lemma RatioBounds(brightest: real, darkest: real)
    requires 0.0 <= darkest <= brightest <= 1.0
    ensures 1.0 <= (brightest + 0.05) / (darkest + 0.05) <= 21.0
    ensures (brightest + 0.05) / (darkest + 0.05) == 1.0 <==> brightest == darkest
  {
    var n, d := brightest + 0.05, darkest + 0.05;
    var q := n / d;
    assert q * d == n;
    if q < 1.0 {
      ScaleStrict(q, 1.0, d);
    }
    if q > 21.0 {
      ScaleStrict(21.0, q, d);
    }
    if q == 1.0 {
      assert n == d;
    }
  }

  lemma ScaleStrict(x: real, y: real, d: real)
    requires x < y && 0.0 < d
    ensures x * d < y * d
  {
  }

  /** `(max(L1, L2) + 0.05) / (min(L1, L2) + 0.05)`: between 1 (same luminance)
      and 21 (black against white). */
  function ContrastRatio(c1: Color, c2: Color): (ratio: real)
    requires ValidColor(c1) && ValidColor(c2)
    ensures 1.0 <= ratio <= 21.0
    ensures ratio == 1.0 <==> Luminance(c1) == Luminance(c2)
  {
    var l1 := Luminance(c1);
    var l2 := Luminance(c2);
    var brightest := MaxReal(l1, l2);
    var darkest := MinReal(l1, l2);
    RatioBounds(brightest, darkest);
    (brightest + 0.05) / (darkest + 0.05)
  }

  lemma ContrastSymmetric(c1: Color, c2: Color)
    requires ValidColor(c1) && ValidColor(c2)
    ensures ContrastRatio(c1, c2) == ContrastRatio(c2, c1)
  {
  }

  lemma ContrastWithItself(c: Color)
    requires ValidColor(c)
    ensures ContrastRatio(c, c) == 1.0
  {
  }

  /** Black on white reaches the largest ratio, 21. */
  lemma ContrastBlackWhite()
    ensures ContrastRatio(Color(0, 0, 0), Color(255, 255, 255)) == 21.0
  {
  }

  /** The contrast test `ratio > 4.5` with the ratio's denominator multiplied out:
      the brighter shifted luminance exceeds 4.5 times the darker one. */
  predicate ExceedsMinContrast(c1: Color, c2: Color) {
    var l1, l2 := Luminance(c1), Luminance(c2);
    MaxReal(l1, l2) + 0.05 > MinContrast * (MinReal(l1, l2) + 0.05)
  }

  /** For colours in range the multiplied-out test is exactly `ContrastRatio > 4.5`. */
  lemma ExceedsMinContrastIsRatioTest(c1: Color, c2: Color)
    requires ValidColor(c1) && ValidColor(c2)
    ensures ExceedsMinContrast(c1, c2) <==> ContrastRatio(c1, c2) > MinContrast
  {
    var l1, l2 := Luminance(c1), Luminance(c2);
    CrossMultiply(MaxReal(l1, l2) + 0.05, MinReal(l1, l2) + 0.05, MinContrast);
  }

  /** Comparing a quotient with a bound is comparing the numerator with the bound
      times a positive denominator. */
  lemma CrossMultiply(n: real, d: real, k: real)
    requires d > 0.0
    ensures n / d > k <==> n > k * d
  {
    var q := n / d;
    assert q * d == n;
    if q > k {
      ScaleStrict(k, q, d);
    } else if q < k {
      ScaleStrict(q, k, d);
    }
  }

  /** `c` passes the filter of the text-colour selector: its contrast against both
      `background` and `accent` exceeds 4.5. */
  predicate Legible(c: Color, background: Color, accent: Color) {
    ExceedsMinContrast(c, background) && ExceedsMinContrast(c, accent)
  }

  lemma LegibleIsRatioTest(c: Color, background: Color, accent: Color)
    requires ValidColor(c) && ValidColor(background) && ValidColor(accent)
    ensures Legible(c, background, accent) <==>
              ContrastRatio(c, background) > MinContrast && ContrastRatio(c, accent) > MinContrast
  {
    ExceedsMinContrastIsRatioTest(c, background);
    ExceedsMinContrastIsRatioTest(c, accent);
  }

  /** Position of the first candidate that passes the filter, or -1 when none does. */
  function FirstLegibleIndex(colors: seq<Color>, background: Color, accent: Color): (i: int)
    ensures -1 <= i < |colors|
    ensures 0 <= i ==> Legible(colors[i], background, accent) &&
                       forall j :: 0 <= j < i ==> !Legible(colors[j], background, accent)
    ensures i == -1 ==> forall j :: 0 <= j < |colors| ==> !Legible(colors[j], background, accent)
  {
    if |colors| == 0 then -1
    else if Legible(colors[0], background, accent) then 0
    else
      var k := FirstLegibleIndex(colors[1..], background, accent);
      if k < 0 then -1 else k + 1
  }

  /** Kotlin's `colors.filter { ... }` with the contrast test: the candidates that
      pass, in their original order. */
  function ContrastColors(background: Color, accent: Color, colors: seq<Color>): (legible: seq<Color>)
    requires ValidColor(background) && ValidColor(accent) && AllValid(colors)
    ensures |legible| <= |colors|
    ensures forall k :: 0 <= k < |legible| ==> ValidColor(legible[k]) && Legible(legible[k], background, accent)
    ensures var i := FirstLegibleIndex(colors, background, accent);
            (i == -1 <==> |legible| == 0) && (0 <= i ==> legible[0] == colors[i])
    ensures forall c :: c in legible <==> c in colors && Legible(c, background, accent)
  {
    if |colors| == 0 then []
    else
      var rest := ContrastColors(background, accent, colors[1..]);
      if Legible(colors[0], background, accent) then [colors[0]] + rest else rest
  }

  /** Text colour for a palette: the first candidate whose contrast against both
      `background` and `accent` exceeds 4.5, or else the colour `fallback` derives
      from the two (the source synthesises it through HSV). */
  function FindContrastTextColor(background: Color, accent: Color, colors: seq<Color>,
                                 fallback: (Color, Color) -> Color): (text: Color)
    requires ValidColor(background) && ValidColor(accent) && AllValid(colors)
    ensures var i := FirstLegibleIndex(colors, background, accent);
            (0 <= i ==> text == colors[i]) && (i == -1 ==> text == fallback(background, accent))
  {
    var contrastColors := ContrastColors(background, accent, colors);
    if |contrastColors| > 0 then contrastColors[0] else fallback(background, accent)
  }

  /** With no candidates at all the selector always takes the fallback branch. */
  lemma EmptyCandidatesFallBack(background: Color, accent: Color, fallback: (Color, Color) -> Color)
    requires ValidColor(background) && ValidColor(accent)
    ensures FindContrastTextColor(background, accent, [], fallback) == fallback(background, accent)
  {
  }

  /** Whatever branch it takes, the selector returns a legible member of the
      candidate list or the fallback colour; the fallback is taken exactly when no
      candidate is legible. */
  lemma TextColorOrigin(background: Color, accent: Color, colors: seq<Color>, fallback: (Color, Color) -> Color)
    requires ValidColor(background) && ValidColor(accent) && AllValid(colors)
    ensures var text := FindContrastTextColor(background, accent, colors, fallback);
            (text in colors && ValidColor(text) && Legible(text, background, accent)) ||
            (text == fallback(background, accent) && forall c :: c in colors ==> !Legible(c, background, accent))
  {
  }

  /** A candidate whose ratio is exactly 4.5 does not pass: (1,57,95) against
      (2,0,4) is such a tie, so with (2,0,4) and black as background and accent
      and no other legible candidate the selector falls back. */
  lemma ContrastTieRejected(fallback: (Color, Color) -> Color)
    ensures ContrastRatio(Color(1, 57, 95), Color(2, 0, 4)) == MinContrast
    ensures FindContrastTextColor(Color(2, 0, 4), Color(0, 0, 0),
                                  [Color(2, 0, 4), Color(0, 0, 0), Color(1, 57, 95)], fallback)
            == fallback(Color(2, 0, 4), Color(0, 0, 0))
  {
    ExceedsMinContrastIsRatioTest(Color(1, 57, 95), Color(2, 0, 4));
  }
}
