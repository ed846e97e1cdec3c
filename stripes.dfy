/**
 * Stripe decomposition of an invoice image (app.py, split_image_into_horizontal_stripes).
 * An image of height `height` is cut into `n` horizontal bands of nominal height
 * sh = height / n; each band is widened by `oh` rows above and below and then clamped
 * to the image.  Only the crop boxes are modelled; the pixels are not.
 *
 * Most facts hold for any nominal height sh with n * sh <= height; they are proved in that
 * form (the Band lemmas) and then specialised to sh = height / n (the Layout lemmas).
 */
module Stripes {

  /** A crop box (left, upper, right, lower) as handed to the image crop: rows [upper, lower). */
  datatype Box = Box(left: int, upper: int, right: int, lower: int)

  function Max(a: int, b: int): int { if a >= b then a else b }

  function Min(a: int, b: int): int { if a <= b then a else b }

  /** First row of stripe i: i * sh - oh, clamped at the top edge. */
  function Upper(i: nat, sh: nat, oh: nat): int { Max(i * sh - oh, 0) }

  /** One past the last row of stripe i: (i + 1) * sh + oh, clamped at the bottom edge. */
  function Lower(i: nat, sh: nat, oh: nat, height: nat): int { Min((i + 1) * sh + oh, height) }

  /** n full-width bands of nominal height sh, widened by oh and clamped to [0, height). */
  function Bands(width: nat, height: nat, n: nat, sh: nat, oh: nat): (r: seq<Box>)
    ensures |r| == n
  {
    seq(n, i requires 0 <= i < n => Box(0, Upper(i, sh, oh), width, Lower(i, sh, oh, height)))
  }

  /** The decomposition the source computes: nominal height height / n. */
  function Layout(width: nat, height: nat, n: nat, oh: nat): (r: seq<Box>)
    requires n >= 1
    ensures |r| == n
  {
    Bands(width, height, n, height / n, oh)
  }

  /** True when row `row` lies inside at least one of the boxes. */
  predicate Covers(boxes: seq<Box>, row: int)
  {
    exists i :: 0 <= i < |boxes| && boxes[i].upper <= row < boxes[i].lower
  }

  /**
   * The stripe loop: one crop box per stripe index, appended in index order.
   * A stripe count of zero makes the source divide by zero, hence the requires.
   */
  method SplitIntoStripes(width: nat, height: nat, stripeCount: nat, overlapHeight: nat)
    returns (stripes: seq<Box>)
    requires stripeCount >= 1
    ensures stripes == Layout(width, height, stripeCount, overlapHeight)
  {
    var stripeHeight := height / stripeCount;
    stripes := [];
    for i := 0 to stripeCount
      invariant stripes == Bands(width, height, stripeCount, stripeHeight, overlapHeight)[..i]
    {
      var upper := Max(i * stripeHeight - overlapHeight, 0);
      var lower := Min((i + 1) * stripeHeight + overlapHeight, height);
      stripes := stripes + [Box(0, upper, width, lower)];
    }
  }

  lemma MulMonotone(a: nat, b: nat, c: nat)
    requires a <= b
    ensures a * c <= b * c
  {
    assert b * c == a * c + (b - a) * c;
  }

  /** n whole nominal stripes never reach past the image. */
  lemma NominalFits(height: nat, n: nat)
    requires n >= 1
    ensures n * (height / n) <= height
  {
  }

  // ---------------------------------------------------------------- bands, any sh

  lemma BandWithin(n: nat, sh: nat, oh: nat, height: nat, i: nat)
    requires i < n && n * sh <= height
    ensures 0 <= Upper(i, sh, oh) <= Lower(i, sh, oh, height) <= height
  {
    MulMonotone(i, n, sh);
  }

  lemma BandOrder(n: nat, sh: nat, oh: nat, height: nat, i: nat)
    requires i + 1 < n && n * sh <= height
    ensures Upper(i, sh, oh) <= Upper(i + 1, sh, oh)
    ensures Lower(i, sh, oh, height) <= Lower(i + 1, sh, oh, height)
    ensures Upper(i + 1, sh, oh) <= Lower(i, sh, oh, height)
    ensures oh <= sh ==> Lower(i, sh, oh, height) - Upper(i + 1, sh, oh) == 2 * oh
  {
    MulMonotone(i + 2, n, sh);
    assert (i + 1) * sh == i * sh + sh;
    assert (i + 2) * sh == (i + 1) * sh + sh;
  }

  lemma InteriorBand(n: nat, sh: nat, oh: nat, height: nat, i: nat)
    requires 0 < i && i + 1 < n && n * sh <= height && oh <= sh
    ensures Lower(i, sh, oh, height) - Upper(i, sh, oh) == sh + 2 * oh
  {
    MulMonotone(i + 2, n, sh);
    MulMonotone(1, i, sh);
    assert (i + 1) * sh == i * sh + sh;
    assert (i + 2) * sh == (i + 1) * sh + sh;
  }

  /** A row inside band i < n lies above min(n * sh + oh, height). */
  lemma RowBelowBound(i: nat, n: nat, sh: nat, oh: nat, height: nat, row: int)
    requires i < n && Upper(i, sh, oh) <= row < Lower(i, sh, oh, height)
    ensures 0 <= row < Min(n * sh + oh, height)
  {
    MulMonotone(i + 1, n, sh);
  }

  /** Row `row` lies in band min(row / sh, n - 1). */
  lemma RowInBand(n: nat, sh: nat, oh: nat, height: nat, row: int)
    requires n >= 1 && sh >= 1 && 0 <= row < Min(n * sh + oh, height)
    ensures var i := Min(row / sh, n - 1);
      0 <= i && Upper(i, sh, oh) <= row < Lower(i, sh, oh, height)
  {
    var q := row / sh;
    assert q * sh <= row < (q + 1) * sh by {
      assert row == q * sh + row % sh;
      assert (q + 1) * sh == q * sh + sh;
    }
    var i: nat := Min(q, n - 1);
    MulMonotone(i, q, sh);
  }

  lemma {:induction false} BandsCoverage(width: nat, height: nat, n: nat, sh: nat, oh: nat)
    requires n >= 1
    ensures forall row :: Covers(Bands(width, height, n, sh, oh), row)
                          <==> 0 <= row < Min(n * sh + oh, height)
  {
    var boxes := Bands(width, height, n, sh, oh);
    forall row | Covers(boxes, row) ensures 0 <= row < Min(n * sh + oh, height) {
      var i :| 0 <= i < n && boxes[i].upper <= row < boxes[i].lower;
      RowBelowBound(i, n, sh, oh, height, row);
    }
    forall row | 0 <= row < Min(n * sh + oh, height) ensures Covers(boxes, row) {
      var i: nat := if sh == 0 then 0 else Min(row / sh, n - 1);
      if sh > 0 {
        RowInBand(n, sh, oh, height, row);
      }
      assert boxes[i].upper <= row < boxes[i].lower;
    }
  }

  // ---------------------------------------------------------------- the source's layout

  /** Every stripe spans the full width and lies within the image rows, with upper <= lower. */
  lemma StripeWithinImage(width: nat, height: nat, n: nat, oh: nat, i: nat)
    requires n >= 1 && i < n
    ensures var b := Layout(width, height, n, oh)[i];
      b.left == 0 && b.right == width && 0 <= b.upper <= b.lower <= height
  {
    NominalFits(height, n);
    BandWithin(n, height / n, oh, height, i);
  }

  /**
   * Stripes come top to bottom: the first starts at row 0, upper and lower bounds never
   * decrease, and consecutive stripes touch or overlap.  When oh <= sh the shared band of
   * two neighbours is exactly 2 * oh rows (each side is widened by oh).
   */
  lemma StripeOrder(width: nat, height: nat, n: nat, oh: nat, i: nat)
    requires n >= 1 && i + 1 < n
    ensures var s := Layout(width, height, n, oh);
      && s[0].upper == 0
      && s[i].upper <= s[i + 1].upper
      && s[i].lower <= s[i + 1].lower
      && s[i + 1].upper <= s[i].lower
      && (oh <= height / n ==> s[i].lower - s[i + 1].upper == 2 * oh)
  {
    NominalFits(height, n);
    BandOrder(n, height / n, oh, height, i);
  }

  /** A stripe strictly between the first and the last has height sh + 2 * oh. */
  lemma InteriorStripeHeight(width: nat, height: nat, n: nat, oh: nat, i: nat)
    requires n >= 1 && 0 < i < n - 1 && oh <= height / n
    ensures Layout(width, height, n, oh)[i].lower - Layout(width, height, n, oh)[i].upper
            == height / n + 2 * oh
  {
    NominalFits(height, n);
    InteriorBand(n, height / n, oh, height, i);
  }

  /** The last stripe ends at min(n * sh + oh, height). */
  lemma LastStripeEnd(width: nat, height: nat, n: nat, oh: nat)
    requires n >= 1
    ensures Layout(width, height, n, oh)[n - 1].lower == Min(n * (height / n) + oh, height)
  {
  }

  /**
   * The union of the stripes is exactly the rows [0, min(n * sh + oh, height)): rows below
   * that bound are not covered by any stripe.
   */
  lemma CoverageExact(width: nat, height: nat, n: nat, oh: nat)
    requires n >= 1
    ensures forall row :: Covers(Layout(width, height, n, oh), row)
                          <==> 0 <= row < Min(n * (height / n) + oh, height)
  {
    BandsCoverage(width, height, n, height / n, oh);
  }

  /**
   * The stripes cover every row of the image exactly when the remainder height % n is
   * at most the overlap; otherwise the bottom height % n - oh rows are never cropped.
   */
  lemma CoversWholeImageIff(width: nat, height: nat, n: nat, oh: nat)
    requires n >= 1
    ensures (forall row :: 0 <= row < height ==> Covers(Layout(width, height, n, oh), row))
            <==> height % n <= oh
  {
    var sh := height / n;
    BandsCoverage(width, height, n, sh, oh);
    assert height == n * sh + height % n;
    if height % n > oh {
      assert !Covers(Layout(width, height, n, oh), height - 1);
    }
  }

  /** An image with fewer rows than stripes yields only empty stripes (0, 0). */
  lemma ShortImageStripesEmpty(width: nat, height: nat, n: nat, oh: nat)
    requires n >= 1 && height < n && oh <= height / n
    ensures forall i :: 0 <= i < n ==> Layout(width, height, n, oh)[i] == Box(0, 0, width, 0)
  {
    assert height / n == 0;
  }

  /**
   * A 100 x 24 image in 5 stripes (sh = 4, and the default overlap int(4 * 0.1) = 0): the last
   * stripe ends at row 20, so rows 20..23 are never cropped.
   */
  lemma BottomRowsDropped()
    ensures Layout(100, 24, 5, 0)[4] == Box(0, 16, 100, 20)
    ensures forall row :: 20 <= row < 24 ==> !Covers(Layout(100, 24, 5, 0), row)
  {
    CoverageExact(100, 24, 5, 0);
  }

  /** An image 1000 wide and 500 rows high after the upscale, in 5 stripes with a 10-row overlap. */
  lemma DefaultExample()
    ensures Layout(1000, 500, 5, 10)
            == [Box(0, 0, 1000, 110), Box(0, 90, 1000, 210), Box(0, 190, 1000, 310),
                Box(0, 290, 1000, 410), Box(0, 390, 1000, 500)]
  {
  }
}
