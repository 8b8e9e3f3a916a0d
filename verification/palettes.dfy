/** The five 3-colour palettes derived from the dominant colours of an image:
    Monochromatic, Complementary, Triadic, Square and Analogous. Triadic and
    Analogous partners are found by position in the colour list, not by hue. */
module Palettes {
  import opened Colors
  import opened Contrast

  /** Kotlin's `Triple`, the shape every palette is built in. */
  datatype Triple = Triple(first: Color, second: Color, third: Color) {
    function ToList(): seq<Color> {
      [first, second, third]
    }
  }

  /** The HSV-based collaborators the palettes use: the three hue rotations of the
      Square palette and the colour the text selector synthesises when no candidate
      qualifies. */
  datatype HsvOps = HsvOps(squareColors: Color -> Triple, contrastFallback: (Color, Color) -> Color)

  /** The HSV collaborators map colours in range to colours in range. (The source's
      own HSV code does not for grey colours, whose hue is not a number.) */
  ghost predicate HsvStaysInRange(hsv: HsvOps) {
    (forall c :: ValidColor(c) ==> var t := hsv.squareColors(c); ValidColor(t.first) && ValidColor(t.second) && ValidColor(t.third)) &&
    (forall a, b :: ValidColor(a) && ValidColor(b) ==> ValidColor(hsv.contrastFallback(a, b)))
  }

  /** One draw of `colors.random()` per palette, each an index into the colour list. */
  datatype Picks = Picks(monochromatic: nat, complementary: nat, triadic: nat, square: nat, analogous: nat)

  predicate PicksIn(picks: Picks, n: nat) {
    picks.monochromatic < n && picks.complementary < n && picks.triadic < n &&
    picks.square < n && picks.analogous < n
  }

  // ---------------------------------------------------------------------------
  // Lookups by list position

  /** Taking a non-negative position below twice the length modulo the length
      subtracts the length at most once. */
  lemma WrapAround(a: int, n: int)
    requires 0 < n && 0 <= a < 2 * n
    ensures a % n == if a < n then a else a - n
  {
    if a >= n {
      assert a == n * 1 + (a - n);
    }
  }

  /** Kotlin's `%` on `Int`, which truncates toward zero: the remainder takes the
      sign of the dividend. */
  function TruncRem(a: int, n: int): (r: int)
    requires 0 < n
    ensures -n < r < n
    ensures a >= 0 ==> r == a % n
    ensures a < 0 ==> r == -((-a) % n)
  {
    if a >= 0 then a % n else -((-a) % n)
  }

  /** The colour a third of the list after the first occurrence of `color`, wrapping
      around. A colour missing from the list has index -1: in a one-colour list the
      position is then `-1 % 1 == 0`, in a list of three or more it is
      `|colors|/3 - 1`, and in a two-colour list it is -1, where the source fails. */
  function FindTriadicColor(color: Color, colors: seq<Color>): (t: Color)
    requires |colors| > 0 && (color in colors || |colors| != 2)
    ensures t in colors
    ensures var i, step := IndexOf(colors, color), |colors| / 3;
            (i + step < 0 ==> t == colors[0]) &&
            (0 <= i + step < |colors| ==> t == colors[i + step]) &&
            (i + step >= |colors| ==> t == colors[i + step - |colors|])
  {
    var index := IndexOf(colors, color);
    var offset := |colors| / 3;
    var triadicIndex := TruncRem(index + offset, |colors|);
    // a non-negative position wraps at most once; a negative one is -1 % 1 == 0
    if index + offset >= 0 then
      WrapAround(index + offset, |colors|);
      colors[triadicIndex]
    else
      WrapAround(1, |colors|);
      colors[triadicIndex]
  }

  /** In a one-colour list the triadic partner of any colour, present or not, is that colour. */
  lemma TriadicSingleton(color: Color, other: Color)
    ensures FindTriadicColor(color, [other]) == other
  {
  }

  /** The colour right after the first occurrence of `color`, wrapping from the
      last position to the first; a colour missing from the list gives the first. */
  function FindAnalogousColor(color: Color, colors: seq<Color>): (a: Color)
    requires |colors| > 0
    ensures a in colors
    ensures var i := IndexOf(colors, color);
            (i < |colors| - 1 ==> a == colors[i + 1]) && (i == |colors| - 1 ==> a == colors[0])
  {
    var index := IndexOf(colors, color);
    WrapAround(index + 1, |colors|);
    colors[(index + 1) % |colors|]
  }

  // ---------------------------------------------------------------------------
  // The palettes

  /** The base, the base 50 darker per channel, the base 50 lighter per channel. */
  function CreateMonochromaticPalette(colors: seq<Color>, pick: nat): (p: Triple)
    requires pick < |colors|
    ensures p.first == colors[pick]
    ensures p.second == DarkerColor(p.first) && p.third == LighterColor(p.first)
    ensures ValidColor(p.first) ==>
              ValidColor(p.second) && ValidColor(p.third) &&
              p.second.r <= p.first.r <= p.third.r &&
              p.second.g <= p.first.g <= p.third.g &&
              p.second.b <= p.first.b <= p.third.b
  {
    var baseColor := colors[pick];
    Triple(baseColor, DarkerColor(baseColor), LighterColor(baseColor))
  }

  /** The base, a legible text colour, and the complement of the base. */
  function CreateComplementaryPalette(colors: seq<Color>, pick: nat, fallback: (Color, Color) -> Color): (p: Triple)
    requires AllValid(colors) && pick < |colors|
    ensures p.first == colors[pick]
    ensures ValidColor(p.third) && Complement(p.third) == p.first
    ensures p.second == FindContrastTextColor(p.first, p.third, colors, fallback)
  {
    var baseColor := colors[pick];
    var complementaryColor := Complement(baseColor);
    ComplementInvolution(baseColor);
    var textColor := FindContrastTextColor(baseColor, complementaryColor, colors, fallback);
    Triple(baseColor, textColor, complementaryColor)
  }

  /** The base and two triadic steps along the list. */
  function CreateTriadicPalette(colors: seq<Color>, pick: nat): (p: Triple)
    requires pick < |colors|
    ensures p.first == colors[pick]
    ensures p.second == FindTriadicColor(p.first, colors) && p.third == FindTriadicColor(p.second, colors)
  {
    var baseColor := colors[pick];
    var triadicColor1 := FindTriadicColor(baseColor, colors);
    var triadicColor2 := FindTriadicColor(triadicColor1, colors);
    Triple(baseColor, triadicColor1, triadicColor2)
  }

  /** Three hue rotations of the base, as the HSV collaborator computes them. */
  function CreateSquarePalette(colors: seq<Color>, pick: nat, hsv: HsvOps): (p: Triple)
    requires pick < |colors|
    ensures p == hsv.squareColors(colors[pick])
  {
    hsv.squareColors(colors[pick])
  }

  /** The base, a legible text colour, and the base's neighbour in the list. */
  function CreateAnalogousPalette(colors: seq<Color>, pick: nat, fallback: (Color, Color) -> Color): (p: Triple)
    requires AllValid(colors) && pick < |colors|
    ensures p.first == colors[pick]
    ensures p.third == FindAnalogousColor(p.first, colors)
    ensures p.second == FindContrastTextColor(p.first, p.third, colors, fallback)
  {
    var baseColor := colors[pick];
    var analogousColor := FindAnalogousColor(baseColor, colors);
    var textColor := FindContrastTextColor(baseColor, analogousColor, colors, fallback);
    Triple(baseColor, textColor, analogousColor)
  }

  /** `listOf(mono.toList(), ...)`: the five triples as lists, in the order given. */
  function PaletteLists(mono: Triple, complement: Triple, triadic: Triple, square: Triple, analogous: Triple): (palettes: seq<seq<Color>>)
    ensures |palettes| == 5
    ensures forall k :: 0 <= k < |palettes| ==> |palettes[k]| == 3
    ensures palettes[0] == mono.ToList() && palettes[1] == complement.ToList() &&
            palettes[2] == triadic.ToList() && palettes[3] == square.ToList() && palettes[4] == analogous.ToList()
  {
    [mono.ToList(), complement.ToList(), triadic.ToList(), square.ToList(), analogous.ToList()]
  }

  /** The five palettes, as lists, in the order Monochromatic, Complementary,
      Triadic, Square, Analogous, each from its own draw of a base colour. */
  function CreateColorPalettes(colors: seq<Color>, picks: Picks, hsv: HsvOps): (palettes: seq<seq<Color>>)
    requires AllValid(colors) && PicksIn(picks, |colors|)
    ensures |palettes| == 5
    ensures forall k :: 0 <= k < |palettes| ==> |palettes[k]| == 3
    ensures palettes[0] == CreateMonochromaticPalette(colors, picks.monochromatic).ToList()
    ensures palettes[1] == CreateComplementaryPalette(colors, picks.complementary, hsv.contrastFallback).ToList()
    ensures palettes[2] == CreateTriadicPalette(colors, picks.triadic).ToList()
    ensures palettes[3] == CreateSquarePalette(colors, picks.square, hsv).ToList()
    ensures palettes[4] == CreateAnalogousPalette(colors, picks.analogous, hsv.contrastFallback).ToList()
  {
    PaletteLists(
      CreateMonochromaticPalette(colors, picks.monochromatic),
      CreateComplementaryPalette(colors, picks.complementary, hsv.contrastFallback),
      CreateTriadicPalette(colors, picks.triadic),
      CreateSquarePalette(colors, picks.square, hsv),
      CreateAnalogousPalette(colors, picks.analogous, hsv.contrastFallback))
  }

  // ---------------------------------------------------------------------------
  // Properties

  predicate ValidTriple(t: Triple) {
    ValidColor(t.first) && ValidColor(t.second) && ValidColor(t.third)
  }

  /** Every colour of every palette stays in 0..255 when the dominant colours and
      the HSV collaborators do. */
  lemma PalettesStayInRange(colors: seq<Color>, picks: Picks, hsv: HsvOps)
    requires AllValid(colors) && PicksIn(picks, |colors|) && HsvStaysInRange(hsv)
    ensures var palettes := CreateColorPalettes(colors, picks, hsv);
            forall k :: 0 <= k < |palettes| ==> AllValid(palettes[k])
  {
    var mono := CreateMonochromaticPalette(colors, picks.monochromatic);
    var comp := CreateComplementaryPalette(colors, picks.complementary, hsv.contrastFallback);
    var triadic := CreateTriadicPalette(colors, picks.triadic);
    var square := CreateSquarePalette(colors, picks.square, hsv);
    var analog := CreateAnalogousPalette(colors, picks.analogous, hsv.contrastFallback);
    TextColorInRange(comp.first, comp.third, colors, hsv);
    TextColorInRange(analog.first, analog.third, colors, hsv);
    assert ValidTriple(mono) && ValidTriple(comp) && ValidTriple(triadic) && ValidTriple(square) && ValidTriple(analog);
    ValidTriplesValidLists(CreateColorPalettes(colors, picks, hsv), mono, comp, triadic, square, analog);
  }

  lemma TextColorInRange(background: Color, accent: Color, colors: seq<Color>, hsv: HsvOps)
    requires ValidColor(background) && ValidColor(accent) && AllValid(colors) && HsvStaysInRange(hsv)
    ensures ValidColor(FindContrastTextColor(background, accent, colors, hsv.contrastFallback))
  {
  }

  lemma ValidTriplesValidLists(palettes: seq<seq<Color>>, mono: Triple, comp: Triple, triadic: Triple, square: Triple, analog: Triple)
    requires palettes == PaletteLists(mono, comp, triadic, square, analog)
    requires ValidTriple(mono) && ValidTriple(comp) && ValidTriple(triadic) && ValidTriple(square) && ValidTriple(analog)
    ensures forall k :: 0 <= k < |palettes| ==> AllValid(palettes[k])
  {
  }

  /** Each palette except Square starts with its drawn base colour. */
  lemma PalettesStartWithBase(colors: seq<Color>, picks: Picks, hsv: HsvOps)
    requires AllValid(colors) && PicksIn(picks, |colors|)
    ensures var palettes := CreateColorPalettes(colors, picks, hsv);
            palettes[0][0] == colors[picks.monochromatic] &&
            palettes[1][0] == colors[picks.complementary] &&
            palettes[2][0] == colors[picks.triadic] &&
            palettes[4][0] == colors[picks.analogous]
  {
  }

  /** In a list of one or two colours the triadic step is 0, so a colour of the
      list is its own triadic partner. */
  lemma TriadicSmallList(colors: seq<Color>, color: Color)
    requires 1 <= |colors| <= 2 && color in colors
    ensures FindTriadicColor(color, colors) == color
  {
  }

  /** Position `i + n/3`, wrapped once into a list of length `n`. */
  function TriadicPosition(i: nat, n: nat): (j: nat)
    requires i < n
    ensures j < n
    ensures j == i + n / 3 || j == i + n / 3 - n
  {
    if i + n / 3 < n then i + n / 3 else i + n / 3 - n
  }

  /** In a list without repetitions the triadic partner of position i is position
      i + |colors|/3, cyclically. */
  lemma TriadicStep(colors: seq<Color>, i: nat)
    requires Distinct(colors) && i < |colors|
    ensures FindTriadicColor(colors[i], colors) == colors[TriadicPosition(i, |colors|)]
  {
    IndexOfDistinct(colors, i);
  }

  /** When the list length is a multiple of 3 and has no repetitions, three triadic
      steps come back to the start, and the Triadic palette has three different colours. */
  lemma {:induction false} TriadicCycle(colors: seq<Color>, i: nat)
    requires Distinct(colors) && |colors| % 3 == 0 && i < |colors|
    ensures var t1 := FindTriadicColor(colors[i], colors);
            var t2 := FindTriadicColor(t1, colors);
            t1 != colors[i] && t2 != colors[i] && t2 != t1 &&
            FindTriadicColor(t2, colors) == colors[i]
  {
    var n := |colors|;
    TriadicIndices(i, n);
    var i1 := TriadicPosition(i, n);
    var i2 := TriadicPosition(i1, n);
    TriadicStep(colors, i);
    TriadicStep(colors, i1);
    TriadicStep(colors, i2);
    DistinctAt(colors, i, i1);
    DistinctAt(colors, i, i2);
    DistinctAt(colors, i1, i2);
  }

  lemma DistinctAt<T>(s: seq<T>, i: nat, j: nat)
    requires Distinct(s) && i < |s| && j < |s| && i != j
    ensures s[i] != s[j]
  {
    if j < i {
      assert s[j] != s[i];
    }
  }

  /** In a list whose length is a multiple of 3, three triadic steps from `i` visit
      three different positions and return to `i`. */
  lemma TriadicIndices(i: nat, n: nat)
    requires n % 3 == 0 && i < n
    ensures var i1 := TriadicPosition(i, n);
            var i2 := TriadicPosition(i1, n);
            i1 != i && i2 != i && i1 != i2 && TriadicPosition(i2, n) == i
  {
    assert n == 3 * (n / 3);
  }

  /** In a list without repetitions the analogous partner of position i is the next
      position, and the last position wraps to the first. */
  lemma AnalogousStep(colors: seq<Color>, i: nat)
    requires Distinct(colors) && i < |colors|
    ensures FindAnalogousColor(colors[i], colors) == colors[(i + 1) % |colors|]
    ensures i == |colors| - 1 ==> FindAnalogousColor(colors[i], colors) == colors[0]
  {
    IndexOfDistinct(colors, i);
  }

  /** A one-colour list is its own analogous partner. */
  lemma AnalogousSingleton(color: Color)
    ensures FindAnalogousColor(color, [color]) == color
  {
  }
}
