/** How an analog value is binned: 256 evenly spaced labels over a range, and the index of
    the label a value is logged under.  Reals stand for the program's floats. */
module Binning {

  const NUM_BINS: nat := 256

  type Bindex = b: nat | b < NUM_BINS

  datatype BinParams = BinParams(labels: seq<real>, binWidth: real, binHalfWidth: real, minVariance: real)

  function LabelAt(min: real, width: real, i: nat): real {
    min + (i as real) * width
  }

  /** The labels in steps of one bin width. */
  ghost predicate Even(p: BinParams) {
    && |p.labels| == NUM_BINS && p.binWidth > 0.0 && p.binHalfWidth == p.binWidth / 2.0
    && p.minVariance == p.binWidth * p.binWidth / 4.0
    && forall i: nat {:trigger LabelAt(p.labels[0], p.binWidth, i)} ::
         i < NUM_BINS ==> p.labels[i] == LabelAt(p.labels[0], p.binWidth, i)
  }

  lemma NextLabel(min: real, width: real, i: nat)
    ensures LabelAt(min, width, i + 1) == LabelAt(min, width, i) + width
  {
    assert (i + 1) as real == i as real + 1.0;
  }

  /** Labels from the least to the greatest value of a range. */
  method SpecifyBinParamsForAnalogValues(minValueLabeled: real, maxValueLabeled: real) returns (p: BinParams)
    requires minValueLabeled < maxValueLabeled
    ensures Even(p) && p.labels[0] == minValueLabeled && p.labels[NUM_BINS - 1] == maxValueLabeled
  {
    var binWidth := (maxValueLabeled - minValueLabeled) / (NUM_BINS - 1) as real;
    var stackLabels: seq<real> := [];
    var pasteIn := minValueLabeled;
    for i := 0 to NUM_BINS
      invariant |stackLabels| == i && pasteIn == LabelAt(minValueLabeled, binWidth, i)
      invariant forall j :: 0 <= j < i ==> stackLabels[j] == LabelAt(minValueLabeled, binWidth, j)
    {
      stackLabels := stackLabels + [pasteIn];
      NextLabel(minValueLabeled, binWidth, i);
      pasteIn := pasteIn + binWidth;
    }
    p := BinParams(stackLabels, binWidth, binWidth / 2.0, binWidth * binWidth / 4.0);
  }

  // ----- The bin of a value -----

  function RawBin(p: BinParams, x: real): int
    requires Even(p)
  {
    ((x + p.binHalfWidth - p.labels[0]) / p.binWidth).Floor
  }

  predicate IsOutside(p: BinParams, x: real)
    requires Even(p)
  {
    RawBin(p, x) < 0 || RawBin(p, x) > NUM_BINS - 1
  }

  function Bin(p: BinParams, x: real): Bindex
    requires Even(p)
  {
    if RawBin(p, x) < 0 then 0 else if RawBin(p, x) > NUM_BINS - 1 then NUM_BINS - 1 else RawBin(p, x)
  }

  function Abs(x: real): real {
    if x < 0.0 then -x else x
  }

  lemma MulLess(w: real, a: real, b: real)
    requires w > 0.0
    ensures a <= b <==> a * w <= b * w
  {
  }

  lemma FloorBounds(a: real, w: real, f: int)
    requires w > 0.0 && f == (a / w).Floor
    ensures (f as real) * w <= a < ((f + 1) as real) * w
  {
    var q := a / w;
    assert q * w == a;
    assert f as real <= q < (f + 1) as real;
    MulLess(w, f as real, q);
    MulLess(w, (f + 1) as real, q);
  }

  /** Where a value lies, going by its raw bin. */
  lemma RawBinBounds(p: BinParams, x: real)
    requires Even(p)
    ensures (RawBin(p, x) as real) * p.binWidth - p.binHalfWidth <= x - p.labels[0]
    ensures x - p.labels[0] < (RawBin(p, x) as real) * p.binWidth + p.binHalfWidth
  {
    FloorBounds(x + p.binHalfWidth - p.labels[0], p.binWidth, RawBin(p, x));
    assert ((RawBin(p, x) + 1) as real) * p.binWidth == (RawBin(p, x) as real) * p.binWidth + p.binWidth;
  }

  lemma Scaled(a: int, b: int, w: real)
    requires w > 0.0 && a <= b
    ensures (a as real) * w <= (b as real) * w
  {
    MulLess(w, a as real, b as real);
  }

  lemma LabelsApart(p: BinParams, i: nat, j: nat)
    requires Even(p) && i < j < NUM_BINS
    ensures p.labels[j] >= p.labels[i] + p.binWidth
  {
    Scaled(i + 1, j, p.binWidth);
    NextLabel(p.labels[0], p.binWidth, i);
    assert LabelAt(p.labels[0], p.binWidth, i + 1) <= LabelAt(p.labels[0], p.binWidth, j);
    assert p.labels[i] == LabelAt(p.labels[0], p.binWidth, i);
    assert p.labels[j] == LabelAt(p.labels[0], p.binWidth, j);
  }

  /** Labels rise with their index. */
  lemma LabelsRise(p: BinParams, i: nat, j: nat)
    requires Even(p) && i < j < NUM_BINS
    ensures p.labels[i] < p.labels[j]
  {
    LabelsApart(p, i, j);
  }

  /** A value within half a step of the i-th point is below the n-th point's reach iff i is. */
  lemma ReachOf(min: real, width: real, i: int, x: real, n: int)
    requires width > 0.0
    requires (i as real) * width - width / 2.0 <= x - min < (i as real) * width + width / 2.0
    ensures i < n <==> x - min < (n as real) * width - width / 2.0
  {
    if i < n {
      Scaled(i, n - 1, width);
      assert ((n - 1) as real) * width == (n as real) * width - width;
    } else {
      Scaled(n, i, width);
    }
  }

  /** A value lies outside the bins exactly when it is half a bin or more off both end
      labels; one inside is logged under a label no more than half a bin width away. */
  lemma WithinHalfABin(p: BinParams, x: real)
    requires Even(p)
    ensures IsOutside(p, x) <==> x < p.labels[0] - p.binHalfWidth || x >= p.labels[NUM_BINS - 1] + p.binHalfWidth
    ensures !IsOutside(p, x) ==> -p.binHalfWidth <= x - p.labels[Bin(p, x)] < p.binHalfWidth
  {
    var i, min := RawBin(p, x), p.labels[0];
    RawBinBounds(p, x);
    ReachOf(min, p.binWidth, i, x, 0);
    ReachOf(min, p.binWidth, i, x, NUM_BINS);
    NextLabel(min, p.binWidth, NUM_BINS - 1);
    assert p.labels[NUM_BINS - 1] == LabelAt(min, p.binWidth, NUM_BINS - 1);
    LabelsRise(p, 0, NUM_BINS - 1);
    if !IsOutside(p, x) {
      assert p.labels[i] == LabelAt(min, p.binWidth, i);
    }
  }

  lemma NearestOfTwo(x: real, near: real, far: real, width: real)
    requires width > 0.0
    requires (far <= near - width && x >= near - width / 2.0) || (far >= near + width && x <= near + width / 2.0)
    ensures Abs(x - near) <= Abs(x - far)
  {
  }

  /** No lower than half a bin below its label, unless that is the first; and the like above. */
  lemma BinHolds(p: BinParams, x: real)
    requires Even(p)
    ensures Bin(p, x) > 0 ==> x >= p.labels[Bin(p, x)] - p.binHalfWidth
    ensures Bin(p, x) < NUM_BINS - 1 ==> x <= p.labels[Bin(p, x)] + p.binHalfWidth
  {
    var i, raw := Bin(p, x), RawBin(p, x);
    RawBinBounds(p, x);
    assert p.labels[i] == LabelAt(p.labels[0], p.binWidth, i);
    if i > 0 {
      Scaled(i, raw, p.binWidth);
    }
    if i < NUM_BINS - 1 {
      Scaled(raw, i, p.binWidth);
    }
  }

  /** Every value, outside or not, is logged under a label nearest to it. */
  lemma BinIsNearest(p: BinParams, x: real, j: nat)
    requires Even(p) && j < NUM_BINS
    ensures Abs(x - p.labels[Bin(p, x)]) <= Abs(x - p.labels[j])
  {
    var i := Bin(p, x);
    BinHolds(p, x);
    if j < i {
      LabelsApart(p, j, i);
      NearestOfTwo(x, p.labels[i], p.labels[j], p.binWidth);
    } else if j > i {
      LabelsApart(p, i, j);
      NearestOfTwo(x, p.labels[i], p.labels[j], p.binWidth);
    }
  }
}
