# LogoScheme colour pipeline in Dafny

LogoScheme extracts the dominant colours of a logo and derives colour palettes from them.

The image front end works in four steps:

1. It rejects an image that is empty or that does not have three channels.
2. It converts the image from BGR to RGB in place.
3. It samples every pixel in row-major order. It aborts with no colours if any pixel has fewer than three samples.
4. It reduces the samples to at most 12 colours with k-means. When there are no more samples than clusters, the samples are passed through unchanged.

From those colours it builds five 3-colour palettes, each from its own randomly drawn base colour:

- **Monochromatic:** the base, the base 50 darker per channel (clamped at 0) and the base 50 lighter (clamped at 255).
- **Complementary:** the base, a legible text colour, and the complement `255 - c` of the base.
- **Triadic:** the base; the colour `|colors|/3` positions after the first occurrence of the base; and the colour `|colors|/3` positions after the first occurrence of that colour. Both positions wrap around the list.
- **Square:** three hue rotations computed in HSV.
- **Analogous:** the base, a legible text colour, and the colour after the first occurrence of the base, wrapping from the last position to the first.

The text colour is the first candidate whose contrast ratio against both the background and the accent exceeds 4.5. If no candidate qualifies, an HSV-derived fallback is used. The contrast ratio is `(Lmax + 0.05) / (Lmin + 0.05)` over the luminance `0.2126 r' + 0.7152 g' + 0.0722 b'`. Colours are written as `#rrggbb`.

Luminance and contrast use exact `real` arithmetic. The filter's test is stated with the ratio's denominator multiplied out, as `Lmax + 0.05 > 4.5 · (Lmin + 0.05)`, and is proved equal to `ratio > 4.5` for colours in range.

The project has five modules:

- `Colors` (colors.dfy): colours, complement, darker and lighter shades, and `indexOf`.
- `Contrast` (contrast.dfy): luminance, contrast ratio and the text-colour selector.
- `Hex` (hex.dfy): `#rrggbb` formatting and a parser for the same format.
- `Palettes` (palettes.dfy): the list-position lookups and the five palettes.
- `ImageProcessing` (image_processing.dfy): the image front end.

The palette code is pure and is modelled with functions and lemmas. The image front end is modelled with methods and loop invariants:

- The BGR to RGB conversion updates an `array2` of pixels in place.
- The pixel loop and the centroid copy loop are proved against the specification functions `Samples` and `Clustered`.

## Model

| member | source | states |
|---|---|---|
| Colors.Complement | src/main/kotlin/com/example/logoscheme/ShowColorsWindow.kt:196-202 | each channel of the complement sums with the input's to 255; colours in 0..255 stay in 0..255 |
| Colors.ComplementInvolution | src/main/kotlin/com/example/logoscheme/ShowColorsWindow.kt:196-202 | the complement of the complement is the colour itself |
| Colors.Darken | src/main/kotlin/com/example/logoscheme/ShowColorsWindow.kt:150-152 | the result is `v - 50` or 0, never negative, never below `v - 50`, at most `v` for a non-negative `v` |
| Colors.Lighten | src/main/kotlin/com/example/logoscheme/ShowColorsWindow.kt:156-158 | the result is `v + 50` or 255, never above 255, never above `v + 50`, at least `v` for `v <= 255` |
| Colors.DarkerColor | src/main/kotlin/com/example/logoscheme/ShowColorsWindow.kt:149-153 | for a colour in range, the darker colour is in range and each of its channels is at most the input's |
| Colors.LighterColor | src/main/kotlin/com/example/logoscheme/ShowColorsWindow.kt:155-159 | for a colour in range, the lighter colour is in range and each of its channels is at least the input's |
| Colors.ShadeClampExamples | src/main/kotlin/com/example/logoscheme/ShowColorsWindow.kt:146-162 | (10,10,10) darkens to (0,0,0) and (240,240,240) lightens to (255,255,255) |
| Colors.IndexOf | src/main/kotlin/com/example/logoscheme/ShowColorsWindow.kt:206 | the result is -1 exactly when the element is absent; otherwise it is the position of the element's first occurrence |
| Colors.IndexOfDistinct | src/main/kotlin/com/example/logoscheme/ShowColorsWindow.kt:272 | in a list without repetitions, each element is found at its own position |
| Contrast.Luminance | src/main/kotlin/com/example/logoscheme/ShowColorsWindow.kt:278-284 | the luminance of a colour in range lies in [0, 1]; a grey colour has luminance `v/255` |
| Contrast.RatioBounds | src/main/kotlin/com/example/logoscheme/ShowColorsWindow.kt:290-293 | for luminances in [0, 1], `(brightest + 0.05)/(darkest + 0.05)` lies in [1, 21] and equals 1 exactly when the two luminances are equal |
| Contrast.ContrastRatio | src/main/kotlin/com/example/logoscheme/ShowColorsWindow.kt:286-294 | the ratio lies in [1, 21] and equals 1 exactly when both colours have the same luminance |
| Contrast.ContrastSymmetric | src/main/kotlin/com/example/logoscheme/ShowColorsWindow.kt:286-294 | the ratio does not depend on the order of the two colours |
| Contrast.ContrastWithItself | src/main/kotlin/com/example/logoscheme/ShowColorsWindow.kt:286-294 | a colour has contrast 1 with itself |
| Contrast.ContrastBlackWhite | src/main/kotlin/com/example/logoscheme/ShowColorsWindow.kt:286-294 | black against white has ratio 21 |
| Contrast.ExceedsMinContrastIsRatioTest | src/main/kotlin/com/example/logoscheme/ShowColorsWindow.kt:297-302 | the multiplied-out test used by the filter holds exactly when the contrast ratio exceeds 4.5 |
| Contrast.LegibleIsRatioTest | src/main/kotlin/com/example/logoscheme/ShowColorsWindow.kt:299-303 | a candidate passes the filter exactly when its ratio exceeds 4.5 against both the background and the accent |
| Contrast.FirstLegibleIndex | src/main/kotlin/com/example/logoscheme/ShowColorsWindow.kt:305-306 | either the position of a candidate that passes with every earlier candidate failing, or -1 when no candidate passes |
| Contrast.ContrastColors | src/main/kotlin/com/example/logoscheme/ShowColorsWindow.kt:299-303 | a colour is in the filtered list exactly when it is a legible candidate; the list is empty exactly when no candidate passes; otherwise it starts with the first candidate that passes |
| Contrast.FindContrastTextColor | src/main/kotlin/com/example/logoscheme/ShowColorsWindow.kt:296-321 | returns the first legible candidate in list order when one exists, and otherwise the fallback colour derived from the background and the accent |
| Contrast.EmptyCandidatesFallBack | src/main/kotlin/com/example/logoscheme/ShowColorsWindow.kt:305-320 | with no candidates the selector always returns the fallback |
| Contrast.ContrastTieRejected | src/main/kotlin/com/example/logoscheme/ShowColorsWindow.kt:297-307 | (1,57,95) against (2,0,4) has a ratio of exactly 4.5, so it fails the strict test; with (2,0,4) and black as background and accent, the selector over [(2,0,4), black, (1,57,95)] returns the fallback |
| Contrast.TextColorOrigin | src/main/kotlin/com/example/logoscheme/ShowColorsWindow.kt:296-321 | the text colour is either a legible member of the candidate list, or the fallback, and the fallback is returned only when no candidate is legible |
| Hex.DigitChar | src/main/kotlin/com/example/logoscheme/ShowColorsWindow.kt:121 | each digit value 0..15 becomes a lower-case hex digit that denotes it |
| Hex.NatToHex | src/main/kotlin/com/example/logoscheme/ShowColorsWindow.kt:121 | the digits are lower-case hex, there is at least one digit, and there are no leading zeros (the length is the least `k` with `n < 16^k`) |
| Hex.IntToHex | src/main/kotlin/com/example/logoscheme/ShowColorsWindow.kt:121 | a non-negative value gives only hex digits; a negative one starts with '-' |
| Hex.PadStart | src/main/kotlin/com/example/logoscheme/ShowColorsWindow.kt:121-123 | the result ends with the input, is at least the requested length, is exactly that length when padding was added, and is padded only with the pad character |
| Hex.HexValueOfNatToHex | src/main/kotlin/com/example/logoscheme/ShowColorsWindow.kt:121 | reading the digits back gives the number |
| Hex.HexValueLeadingZero | src/main/kotlin/com/example/logoscheme/ShowColorsWindow.kt:121 | a leading '0' does not change the value a string of hex digits denotes |
| Hex.ChannelHexField | src/main/kotlin/com/example/logoscheme/ShowColorsWindow.kt:121-123 | for a channel in 0..255 the padded field is two hex digits that denote the channel |
| Hex.ChannelHex | src/main/kotlin/com/example/logoscheme/ShowColorsWindow.kt:118-123 | for a channel in 0..255 the field has two lower-case hex digits whose value is the channel |
| Hex.ChannelHexExample | src/main/kotlin/com/example/logoscheme/ShowColorsWindow.kt:121-123 | the channel 10 is written "0a" |
| Hex.ScalarToHexString | src/main/kotlin/com/example/logoscheme/ShowColorsWindow.kt:116-126 | for a colour in range the string has length 7, starts with '#' and continues with hex digits only |
| Hex.HexColorRoundTrip | src/main/kotlin/com/example/logoscheme/ShowColorsWindow.kt:116-126 | parsing the `#rrggbb` string gives back the colour, so each pair denotes its channel |
| Palettes.TruncRem | src/main/kotlin/com/example/logoscheme/ShowColorsWindow.kt:208 | Kotlin's truncating `%`: the remainder is below the divisor in magnitude, is Dafny's `%` for a non-negative dividend, and takes the dividend's sign for a negative one |
| Palettes.FindTriadicColor | src/main/kotlin/com/example/logoscheme/ShowColorsWindow.kt:205-210 | the result is a member of the list, at position `indexOf + size/3` wrapped once around the list; when the colour is absent from a one-colour list the position `-1 % 1` is 0 |
| Palettes.TriadicSingleton | src/main/kotlin/com/example/logoscheme/ShowColorsWindow.kt:205-210 | in a one-colour list any colour, present or not, has that colour as its triadic partner |
| Palettes.FindAnalogousColor | src/main/kotlin/com/example/logoscheme/ShowColorsWindow.kt:271-276 | the result is a member of the list: the one after the first occurrence, or the first entry when that occurrence is the last entry |
| Palettes.CreateMonochromaticPalette | src/main/kotlin/com/example/logoscheme/ShowColorsWindow.kt:146-162 | the palette is (base, darker, lighter) with the drawn base first; for a base in range all three are in range and ordered channel by channel |
| Palettes.CreateComplementaryPalette | src/main/kotlin/com/example/logoscheme/ShowColorsWindow.kt:164-170 | the palette is (base, text, complement); the third colour is in range and its complement is the base; the text colour is chosen against the base and the complement |
| Palettes.CreateTriadicPalette | src/main/kotlin/com/example/logoscheme/ShowColorsWindow.kt:173-179 | the palette is (base, t1, t2) where t1 is the triadic partner of the base and t2 is the triadic partner of t1 |
| Palettes.CreateSquarePalette | src/main/kotlin/com/example/logoscheme/ShowColorsWindow.kt:181-185 | the palette is the HSV rotations of the drawn base |
| Palettes.CreateAnalogousPalette | src/main/kotlin/com/example/logoscheme/ShowColorsWindow.kt:188-194 | the palette is (base, text, neighbour), with the text colour chosen against the base and its neighbour |
| Palettes.PaletteLists | src/main/kotlin/com/example/logoscheme/ShowColorsWindow.kt:137-143 | five lists of three colours, one per triple, in the order given |
| Palettes.CreateColorPalettes | src/main/kotlin/com/example/logoscheme/ShowColorsWindow.kt:136-144 | exactly five palettes of exactly three colours each, in the order Monochromatic, Complementary, Triadic, Square, Analogous |
| Palettes.TextColorInRange | src/main/kotlin/com/example/logoscheme/ShowColorsWindow.kt:296-321 | when the candidates and the fallback stay in 0..255, so does the text colour |
| Palettes.PalettesStayInRange | src/main/kotlin/com/example/logoscheme/ShowColorsWindow.kt:136-194 | when the dominant colours and the HSV collaborators stay in 0..255, every colour of every palette does |
| Palettes.PalettesStartWithBase | src/main/kotlin/com/example/logoscheme/ShowColorsWindow.kt:146-194 | every palette except Square starts with its drawn base colour |
| Palettes.TriadicSmallList | src/main/kotlin/com/example/logoscheme/ShowColorsWindow.kt:205-210 | in a list of one or two colours, a colour of the list is its own triadic partner |
| Palettes.TriadicPosition | src/main/kotlin/com/example/logoscheme/ShowColorsWindow.kt:207-208 | the position `i + n/3` wrapped once stays inside the list |
| Palettes.TriadicStep | src/main/kotlin/com/example/logoscheme/ShowColorsWindow.kt:205-210 | in a list without repetitions, the triadic partner of position i is at the wrapped position `i + size/3` |
| Palettes.TriadicIndices | src/main/kotlin/com/example/logoscheme/ShowColorsWindow.kt:207-208 | when the size is a multiple of 3, three steps visit three different positions and return to the start |
| Palettes.TriadicCycle | src/main/kotlin/com/example/logoscheme/ShowColorsWindow.kt:173-179 | in a list without repetitions whose size is a multiple of 3, the Triadic palette has three different colours, and a third step returns to the base |
| Palettes.AnalogousStep | src/main/kotlin/com/example/logoscheme/ShowColorsWindow.kt:271-276 | in a list without repetitions, the analogous partner of position i is position `(i + 1) % size`, and the last position wraps to the first |
| Palettes.AnalogousSingleton | src/main/kotlin/com/example/logoscheme/ShowColorsWindow.kt:271-276 | a one-colour list is its own analogous partner |
| ImageProcessing.PixelColor | src/main/kotlin/com/example/logoscheme/ImageProcessing.kt:37 | the colour holds samples 0, 1 and 2 of the pixel |
| ImageProcessing.SwapRedBlue | src/main/kotlin/com/example/logoscheme/ImageProcessing.kt:24 | the conversion keeps the pixel's length, exchanges samples 0 and 2, and keeps the rest |
| ImageProcessing.SwapRedBlueInvolution | src/main/kotlin/com/example/logoscheme/ImageProcessing.kt:24 | converting twice gives back the pixel |
| ImageProcessing.RowSamples | src/main/kotlin/com/example/logoscheme/ImageProcessing.kt:29-38 | entry x of the row's samples is the colour of pixel (y, x) |
| ImageProcessing.Samples | src/main/kotlin/com/example/logoscheme/ImageProcessing.kt:28-39 | the samples of `rows` complete rows number `rows * cols` |
| ImageProcessing.SamplesAt | src/main/kotlin/com/example/logoscheme/ImageProcessing.kt:26-39 | row-major order: entry `y * cols + x` is the colour of pixel (y, x) |
| ImageProcessing.ConvertBgrToRgb | src/main/kotlin/com/example/logoscheme/ImageProcessing.kt:24 | every pixel of the image is replaced in place by its conversion |
| ImageProcessing.CollectPixels | src/main/kotlin/com/example/logoscheme/ImageProcessing.kt:26-39 | no list at all exactly when some pixel has fewer than three samples; otherwise the row-major samples of the whole image |
| ImageProcessing.Clustered | src/main/kotlin/com/example/logoscheme/ImageProcessing.kt:44-75 | the result is the input, or it has at most `numColors` entries |
| ImageProcessing.ClusteredSize | src/main/kotlin/com/example/logoscheme/ImageProcessing.kt:44-75 | the result never has more than `numColors` entries, and has exactly that many when clustering runs |
| ImageProcessing.ClusterColors | src/main/kotlin/com/example/logoscheme/ImageProcessing.kt:44-75 | returns the input unchanged when `numColors >= size`; otherwise returns exactly `numColors` entries, entry i being centroid i |
| ImageProcessing.ExtractDominantColors | src/main/kotlin/com/example/logoscheme/ImageProcessing.kt:14-42 | an empty image or a channel count other than 3 gives no colours and leaves the image untouched; otherwise the image is converted to RGB in place; a short pixel gives no colours; complete pixels are clustered into at most `numColors` colours |
| ImageProcessing.ProcessImage | src/main/kotlin/com/example/logoscheme/ImageProcessing.kt:78-85 | asks for 12 colours, so at most 12 are returned; the validation cases give no colours and leave the image untouched; otherwise the image is converted to RGB in place, a short pixel gives no colours, and complete pixels are clustered into 12 |

## Left out

- HSV conversions (`colorToHSV`, `colorFromHSV`, `findSquareColors` and the synthesised fallback colour of `findContrastTextColor`) are function parameters (`HsvOps` and the `fallback` argument). They work on floating point, with `%` on doubles and exact-equality branches, and `colorToHSV` divides by a zero `delta` for grey colours.
- Palettes.PalettesStayInRange assumes HSV collaborators that map colours in 0..255 to colours in 0..255. The source's own HSV code does not, for grey colours (r == g == b, black and white included): the hue `60 * (0/0 % 6)` is NaN, and `colorFromHSV` puts the NaN `x` into the blue channel. So a grey base gives a Square palette with a NaN blue channel, and a grey background or accent gives a fallback text colour with one. For the Square palette and the fallback, the lemma covers only collaborators that stay in range.
- Palettes.CreateSquarePalette states only that it returns the collaborator's three colours, because the hue rotations are floating-point HSV code, which is left out above.
- `colors.random()` is replaced by explicit indices, one per palette (`Picks`).
- The OpenCV calls `loadLibrary` and `imread` are left out: the model takes the decoded image and its channel count as inputs. `cvtColor` is modelled as exchanging samples 0 and 2 of each pixel that has at least three samples.
- The Weka k-means clusterer (building `Instances` and `SimpleKMeans`) is a function parameter. It is required to report at least `numColors` centroids whenever it runs. The source fails with an index error when Weka reports fewer, and that failure is not modelled.
- Channel values are Kotlin doubles; the model uses integers. The `toInt()` truncation in `scalarToHexString` is therefore not modelled, and neither are fractional centroids or fallback colours.
- Contrast.ContrastRatio and the selector require channels in 0..255. Outside that range the denominator `darkest + 0.05` can be zero or negative.
- Palettes.FindTriadicColor requires the colour to be in the list unless the list has other than two entries. For a two-colour list without the colour, the source computes position `-1 % 2 == -1` and fails with an index error, which is not modelled. Every caller passes a member of the list.
- The Swing UI (window layout, palette buttons, `colorFromScalar`), XML persistence of the chosen palette, and the `print`/`println` calls are not part of this model.
- When there are no more samples than clusters, `clusterColors` returns the samples as they are, including repeated colours, and the model follows it. It does not reduce them to distinct colours.
- Contrast.FindContrastTextColor: the rounding of double arithmetic is not modelled; luminance and contrast are exact reals. At an exact ratio of 4.5 the source can accept a candidate that the model rejects. Example: background (2,0,4), accent (0,0,0), candidates [(2,0,4), (0,0,0), (1,57,95)], as in the Analogous palette with the first colour drawn. In doubles, the contrast of (1,57,95) against (2,0,4) comes out as 4.500000000000001 and against black as 4.752, so the source returns (1,57,95). In the model that ratio is exactly 4.5 and the selector falls back (Contrast.ContrastTieRejected).
