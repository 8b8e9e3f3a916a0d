/** The image front end: a decoded image is checked, its channels are reordered
    from BGR to RGB in place, its pixels are sampled in row-major order, and the
    samples are reduced to at most `numColors` colours by a k-means clusterer.

    The decoded image is a two-dimensional array of pixels, each pixel the
    sequence of its channel samples, together with the image's channel count.
    The clusterer is a parameter: it receives the samples and the number of
    clusters and reports the cluster centroids. */
module ImageProcessing {
  import opened Colors

  /** Number of dominant colours the pipeline asks for. */
  const NumColors: nat := 12

  /** A k-means clusterer: the samples and the number of clusters give the centroids. */
  type KMeans = (seq<Color>, nat) -> seq<Color>

  /** The clusterer reports at least `k` centroids whenever it is asked for fewer
      clusters than there are samples. */
  ghost predicate ReportsCentroids(kMeans: KMeans, k: nat) {
    forall samples: seq<Color> :: k < |samples| ==> |kMeans(samples, k)| >= k
  }

  // ---------------------------------------------------------------------------
  // Pixels

  /** An image without pixels. */
  predicate EmptyImage(mat: array2<seq<int>>) {
    mat.Length0 == 0 || mat.Length1 == 0
  }

  /** The first three channel samples of a pixel, as a colour. */
  function PixelColor(pixel: seq<int>): (c: Color)
    requires |pixel| >= 3
    ensures c.r == pixel[0] && c.g == pixel[1] && c.b == pixel[2]
  {
    Color(pixel[0], pixel[1], pixel[2])
  }

  /** The BGR to RGB conversion of one pixel: channels 0 and 2 trade places. */
  function SwapRedBlue(pixel: seq<int>): (swapped: seq<int>)
    ensures |swapped| == |pixel|
    ensures |pixel| >= 3 ==>
              swapped[0] == pixel[2] && swapped[1] == pixel[1] && swapped[2] == pixel[0] &&
              swapped[3..] == pixel[3..]
  {
    if |pixel| >= 3 then [pixel[2], pixel[1], pixel[0]] + pixel[3..] else pixel
  }

  /** Converting twice gives back the original pixel. */
  lemma SwapRedBlueInvolution(pixel: seq<int>)
    ensures SwapRedBlue(SwapRedBlue(pixel)) == pixel
  {
    if |pixel| >= 3 {
      var once := SwapRedBlue(pixel);
      assert once[3..] == pixel[3..];
      assert SwapRedBlue(once) == [pixel[0], pixel[1], pixel[2]] + pixel[3..];
    }
  }

  /** Every pixel of rows 0 .. rows-1 has at least three samples. */
  predicate RowsComplete(mat: array2<seq<int>>, rows: nat)
    reads mat
    requires rows <= mat.Length0
  {
    forall y, x :: 0 <= y < rows && 0 <= x < mat.Length1 ==> |mat[y, x]| >= 3
  }

  predicate AllPixelsComplete(mat: array2<seq<int>>)
    reads mat
  {
    RowsComplete(mat, mat.Length0)
  }

  /** The colours of the first `count` pixels of row `y`, left to right. */
  function RowSamples(mat: array2<seq<int>>, y: nat, count: nat): (samples: seq<Color>)
    reads mat
    requires y < mat.Length0 && count <= mat.Length1
    requires forall x :: 0 <= x < count ==> |mat[y, x]| >= 3
    ensures |samples| == count
    ensures forall x :: 0 <= x < count ==> samples[x] == PixelColor(mat[y, x])
  {
    if count == 0 then [] else RowSamples(mat, y, count - 1) + [PixelColor(mat[y, count - 1])]
  }

  /** The colours of rows 0 .. rows-1, row after row. */
  function Samples(mat: array2<seq<int>>, rows: nat): (samples: seq<Color>)
    reads mat
    requires rows <= mat.Length0 && RowsComplete(mat, rows)
    ensures |samples| == rows * mat.Length1
  {
    if rows == 0 then []
    else
      var earlier := Samples(mat, rows - 1);
      assert |earlier| + mat.Length1 == rows * mat.Length1;
      earlier + RowSamples(mat, rows - 1, mat.Length1)
  }

  /** Row-major order: the sample at `y * cols + x` is the colour of pixel (y, x). */
  lemma {:induction false} SamplesAt(mat: array2<seq<int>>, rows: nat, y: nat, x: nat)
    requires rows <= mat.Length0 && RowsComplete(mat, rows)
    requires y < rows && x < mat.Length1
    ensures y * mat.Length1 + x < |Samples(mat, rows)|
    ensures Samples(mat, rows)[y * mat.Length1 + x] == PixelColor(mat[y, x])
  {
    var cols := mat.Length1;
    var earlier := Samples(mat, rows - 1);
    assert Samples(mat, rows) == earlier + RowSamples(mat, rows - 1, cols);
    assert |earlier| == (rows - 1) * cols;
    if y < rows - 1 {
      SamplesAt(mat, rows - 1, y, x);
      MulMonotone(y, rows - 1, cols);
    } else {
      assert y * cols == |earlier|;
    }
  }

  lemma MulMonotone(y: nat, rows: nat, cols: nat)
    requires y < rows
    ensures y * cols + cols <= rows * cols
  {
    var k: nat := rows - y - 1;
    assert rows == y + 1 + k;
    assert rows * cols == (y + 1 + k) * cols == y * cols + cols + k * cols;
  }

  // ---------------------------------------------------------------------------
  // Operations

  /** `cvtColor(mat, mat, COLOR_BGR2RGB)`: every pixel converted in place. */
  method ConvertBgrToRgb(mat: array2<seq<int>>)
    modifies mat
    ensures forall y, x :: 0 <= y < mat.Length0 && 0 <= x < mat.Length1 ==>
              mat[y, x] == SwapRedBlue(old(mat[y, x]))
  {
    var y := 0;
    while y < mat.Length0
      invariant 0 <= y <= mat.Length0
      invariant forall i, j :: 0 <= i < y && 0 <= j < mat.Length1 ==> mat[i, j] == SwapRedBlue(old(mat[i, j]))
      invariant forall i, j :: y <= i < mat.Length0 && 0 <= j < mat.Length1 ==> mat[i, j] == old(mat[i, j])
    {
      var x := 0;
      while x < mat.Length1
        invariant 0 <= x <= mat.Length1
        invariant forall i, j :: 0 <= i < y && 0 <= j < mat.Length1 ==> mat[i, j] == SwapRedBlue(old(mat[i, j]))
        invariant forall j :: 0 <= j < x ==> mat[y, j] == SwapRedBlue(old(mat[y, j]))
        invariant forall j :: x <= j < mat.Length1 ==> mat[y, j] == old(mat[y, j])
        invariant forall i, j :: y < i < mat.Length0 && 0 <= j < mat.Length1 ==> mat[i, j] == old(mat[i, j])
      {
        mat[y, x] := SwapRedBlue(mat[y, x]);
        x := x + 1;
      }
      y := y + 1;
    }
  }

  /** The row-major pixel loop: one colour per pixel, or nothing at all as soon as
      a pixel has fewer than three samples. */
  method CollectPixels(mat: array2<seq<int>>) returns (pixels: Option<seq<Color>>)
    ensures pixels.None? <==> !AllPixelsComplete(mat)
    ensures pixels.Some? ==> pixels.value == Samples(mat, mat.Length0)
  {
    var pixelList: seq<Color> := [];
    var y := 0;
    while y < mat.Length0
      invariant 0 <= y <= mat.Length0
      invariant RowsComplete(mat, y)
      invariant pixelList == Samples(mat, y)
    {
      var x := 0;
      while x < mat.Length1
        invariant 0 <= x <= mat.Length1
        invariant forall j :: 0 <= j < x ==> |mat[y, j]| >= 3
        invariant pixelList == Samples(mat, y) + RowSamples(mat, y, x)
      {
        var pixel := mat[y, x];
        if |pixel| < 3 {
          return None;
        }
        pixelList := pixelList + [PixelColor(pixel)];
        x := x + 1;
      }
      y := y + 1;
    }
    return Some(pixelList);
  }

  /** What the clustering front end returns: the samples themselves when they are
      no more than the clusters asked for, otherwise the first `numColors` centroids. */
  function Clustered(colors: seq<Color>, numColors: nat, kMeans: KMeans): (clustered: seq<Color>)
    requires numColors < |colors| ==> |kMeans(colors, numColors)| >= numColors
    ensures |clustered| <= numColors || clustered == colors
  {
    if numColors >= |colors| then colors else kMeans(colors, numColors)[..numColors]
  }

  /** The result never has more than `numColors` entries, and has exactly that many
      unless the samples were passed through. */
  lemma ClusteredSize(colors: seq<Color>, numColors: nat, kMeans: KMeans)
    requires numColors < |colors| ==> |kMeans(colors, numColors)| >= numColors
    ensures |Clustered(colors, numColors, kMeans)| <= numColors
    ensures numColors < |colors| ==> |Clustered(colors, numColors, kMeans)| == numColors
  {
  }

  /** `clusterColors`: pass the samples through when there are no more of them than
      clusters, otherwise run k-means and copy the first `numColors` centroids. */
  method ClusterColors(colors: seq<Color>, numColors: nat, kMeans: KMeans) returns (clustered: seq<Color>)
    requires numColors < |colors| ==> |kMeans(colors, numColors)| >= numColors
    ensures numColors >= |colors| ==> clustered == colors
    ensures numColors < |colors| ==>
              |clustered| == numColors &&
              forall i :: 0 <= i < numColors ==> clustered[i] == kMeans(colors, numColors)[i]
    ensures clustered == Clustered(colors, numColors, kMeans)
  {
    if numColors >= |colors| {
      return colors;
    }
    var centroids := kMeans(colors, numColors);
    var clusteredColors: seq<Color> := [];
    var i := 0;
    while i < numColors
      invariant 0 <= i <= numColors
      invariant clusteredColors == centroids[..i]
    {
      var clusterCenter := centroids[i];
      clusteredColors := clusteredColors + [Color(clusterCenter.r, clusterCenter.g, clusterCenter.b)];
      i := i + 1;
    }
    return clusteredColors;
  }

  /** `extractDominantColors` on an already decoded image: an empty image, a channel
      count other than 3 or a pixel with fewer than three samples gives no colours;
      otherwise the RGB samples are clustered into at most `numColors` colours. */
  method ExtractDominantColors(mat: array2<seq<int>>, channels: int, numColors: nat, kMeans: KMeans)
    returns (colors: seq<Color>)
    requires ReportsCentroids(kMeans, numColors)
    modifies mat
    ensures |colors| <= numColors
    ensures EmptyImage(mat) || channels != 3 ==> colors == [] && unchanged(mat)
    ensures !EmptyImage(mat) && channels == 3 ==>
              (forall y, x :: 0 <= y < mat.Length0 && 0 <= x < mat.Length1 ==>
                 mat[y, x] == SwapRedBlue(old(mat[y, x]))) &&
              (!old(AllPixelsComplete(mat)) ==> colors == []) &&
              (old(AllPixelsComplete(mat)) ==>
                 AllPixelsComplete(mat) && colors == Clustered(Samples(mat, mat.Length0), numColors, kMeans))
  {
    if EmptyImage(mat) || channels != 3 {
      return [];
    }
    ConvertBgrToRgb(mat);
    var pixels := CollectPixels(mat);
    match pixels {
      case None =>
        colors := [];
      case Some(pixelList) =>
        colors := ClusterColors(pixelList, numColors, kMeans);
        ClusteredSize(pixelList, numColors, kMeans);
    }
  }

  /** `processImage`: the dominant colours of the image, asking for twelve. */
  method ProcessImage(mat: array2<seq<int>>, channels: int, kMeans: KMeans) returns (colors: seq<Color>)
    requires ReportsCentroids(kMeans, NumColors)
    modifies mat
    ensures |colors| <= NumColors
    ensures EmptyImage(mat) || channels != 3 ==> colors == [] && unchanged(mat)
    ensures !EmptyImage(mat) && channels == 3 ==>
              (forall y, x :: 0 <= y < mat.Length0 && 0 <= x < mat.Length1 ==>
                 mat[y, x] == SwapRedBlue(old(mat[y, x]))) &&
              (!old(AllPixelsComplete(mat)) ==> colors == []) &&
              (old(AllPixelsComplete(mat)) ==>
                 AllPixelsComplete(mat) && colors == Clustered(Samples(mat, mat.Length0), NumColors, kMeans))
  {
    colors := ExtractDominantColors(mat, channels, NumColors, kMeans);
  }
}
