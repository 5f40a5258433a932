/** The Embiggen component's `resizeContent`: search 100 wrap widths for the
    one whose reflowed aspect ratio is closest to the container's, commit it,
    then scale the content uniformly to fill the container. */
module Embiggen {
  import opened Geometry
  import opened Dom
  import opened BestFit

  /** The browser's reflow, seen from this component. `outerBox` is the outer
      element's offset box given its inline width (offset sizes ignore
      transforms). `innerRect` is the inner text's bounding client rectangle
      given the outer element's inline width and transform. */
  datatype Layout = Layout(
    outerBox: Option<real> -> Box,
    innerRect: (Option<real>, Option<real>) -> Box)

  /** The outer element's width with no width constraint. */
  function Natural(layout: Layout): Positive {
    layout.outerBox(None).width
  }

  function Abs(x: real): (r: real)
    ensures r >= 0.0
    ensures r == x || r == -x
  {
    if x < 0.0 then -x else x
  }

  /** How far a box's aspect ratio is from the target. */
  function Distance(target: real, b: Box): (d: real)
    ensures d >= 0.0
    ensures d == 0.0 <==> Ratio(b) == target
  {
    Abs(target - Ratio(b))
  }

  /** The width the search imposes at step `i`. */
  function CandidateWidth(layout: Layout, i: int): real
    requires 1 <= i <= 100
  {
    Natural(layout) * Factor(i)
  }

  /** Every candidate width is positive and at most the natural width, which
      only factor 1.00 reaches. */
  lemma CandidateWidthBounds(layout: Layout, i: int)
    requires 1 <= i <= 100
    ensures 0.0 < CandidateWidth(layout, i) <= Natural(layout)
    ensures CandidateWidth(layout, i) == Natural(layout) <==> i == 100
  {
    var n, f := Natural(layout), Factor(i);
    if i < 100 {
      FactorsDecrease(i, 100);
      MulLess(n, f, 1.0);
    }
  }

  /** Narrower fractions give strictly narrower candidate widths. */
  lemma CandidateWidthsDecrease(layout: Layout, i: int, j: int)
    requires 1 <= i < j <= 100
    ensures CandidateWidth(layout, i) < CandidateWidth(layout, j)
  {
    FactorsDecrease(i, j);
    MulLess(Natural(layout), Factor(i), Factor(j));
  }

  lemma MulLess(n: real, a: real, b: real)
    requires n > 0.0 && a < b
    ensures n * a < n * b
  {
  }

  /** The distance measured at step `i` of the search. */
  function Dist(layout: Layout, target: real, i: int): (d: real)
    requires 1 <= i <= 100
    ensures d >= 0.0
  {
    Distance(target, layout.outerBox(Some(CandidateWidth(layout, i))))
  }

  /** The distances of all 100 steps, step `i` at index i - 1: each is
      non-negative, and zero exactly when that step's candidate width reflows
      the outer element to the target aspect ratio. */
  function Distances(layout: Layout, target: real): (ds: seq<real>)
    ensures Measured(ds)
    ensures forall k :: 0 <= k < 100 ==> ds[k] >= 0.0
    ensures forall k :: 0 <= k < 100 ==>
      (ds[k] == 0.0 <==> Ratio(layout.outerBox(Some(CandidateWidth(layout, k + 1)))) == target)
  {
    seq(100, k requires 0 <= k < 100 => Dist(layout, target, k + 1))
  }

  /** Entry i - 1 of the distances is the one measured at step `i`. */
  lemma DistancesAt(layout: Layout, target: real, i: int)
    requires 1 <= i <= 100
    ensures Distances(layout, target)[i - 1]
      == Abs(target - Ratio(layout.outerBox(Some(CandidateWidth(layout, i)))))
  {
  }

  /** The search loop of `resizeContent`, run with no width or transform
      set on the outer element. It measures the natural width, imposes the 100
      candidate widths on the outer element in decreasing order, measuring
      each, and returns the factor it recorded; the outer element is left at
      the last candidate width. `tried` lists the widths it imposed. */
  method FindBestFactor(outerEl: Style, layout: Layout, targetRatio: real)
    returns (originalOuterElWidth: real, bestFactor: Option<real>, ghost tried: seq<real>)
    requires outerEl.width == None
    modifies outerEl
    ensures originalOuterElWidth == Natural(layout)
    ensures bestFactor == BestFactor(Distances(layout, targetRatio))
    ensures |tried| == 100
    ensures forall k :: 0 <= k < 100 ==> tried[k] == CandidateWidth(layout, 100 - k)
    ensures outerEl.width == Some(CandidateWidth(layout, 1))
    ensures outerEl.transform == old(outerEl.transform)
  {
    originalOuterElWidth := layout.outerBox(outerEl.width).width;
    var bestDistance: Option<real> := None;
    bestFactor := None;
    tried := [];
    ghost var ds := Distances(layout, targetRatio);
    assert originalOuterElWidth == Natural(layout);
    var i := 100;
    while i >= 1
      invariant 0 <= i <= 100
      invariant outerEl.transform == old(outerEl.transform)
      invariant i < 100 ==> outerEl.width == Some(CandidateWidth(layout, i + 1))
      invariant Search(bestDistance, bestFactor) == SearchDown(ds, i + 1)
      invariant |tried| == 100 - i
      invariant forall k :: 0 <= k < |tried| ==> tried[k] == CandidateWidth(layout, 100 - k)
    {
      ghost var before := Search(bestDistance, bestFactor);
      var factor := Factor(i);
      var restrictedOuterElWidth := originalOuterElWidth * factor;
      outerEl.width := Some(restrictedOuterElWidth);
      tried := tried + [restrictedOuterElWidth];
      assert tried[100 - i] == CandidateWidth(layout, i);

      var currentRatio := Ratio(layout.outerBox(outerEl.width));
      var distance := Abs(targetRatio - currentRatio);
      assert distance == At(ds, i) by {
        assert outerEl.width == Some(CandidateWidth(layout, i));
        DistancesAt(layout, targetRatio, i);
      }

      if bestDistance.None? {
        bestDistance := Some(distance);
      } else if distance < bestDistance.value {
        bestDistance := Some(distance);
        bestFactor := Some(factor);
      }
      assert Search(bestDistance, bestFactor) == Visit(before, factor, distance);
      SearchDownStep(ds, i);
      i := i - 1;
    }
    assert i == 0;
    assert Search(bestDistance, bestFactor) == SearchDown(ds, 1);
  }

  /** `resizeContent`. When the container, outer and inner elements are all
      mounted it clears the outer element's width and transform, searches the
      100 candidate widths, commits the best one, and scales the outer element
      so that the inner text fills the container. The final styles depend only
      on the measurements, not on the styles it started from. `tried` lists
      the widths it imposed during the search. */
  method ResizeContent(containerEl: Option<Box>, outerEl: Style?, innerMounted: bool, layout: Layout)
    returns (ghost tried: seq<real>)
    modifies outerEl
    ensures (containerEl.None? || outerEl == null || !innerMounted) ==> tried == []
    ensures (containerEl.None? || !innerMounted) && outerEl != null ==> unchanged(outerEl)
    ensures containerEl.Some? && outerEl != null && innerMounted ==>
      && |tried| == 100
      && (forall k :: 0 <= k < 100 ==> tried[k] == CandidateWidth(layout, 100 - k))
      && outerEl.width == Commit(Natural(layout), BestFactor(Distances(layout, Ratio(containerEl.value))))
      && outerEl.transform == Some(FitScale(containerEl.value, layout.innerRect(outerEl.width, None)))
  {
    tried := [];
    if containerEl.None? || outerEl == null || !innerMounted {
      return;
    }
    var container := containerEl.value;
    var targetRatio := Ratio(container);

    // Cleanup from the previous run.
    outerEl.width := None;
    outerEl.transform := None;

    var originalOuterElWidth, bestFactor;
    originalOuterElWidth, bestFactor, tried := FindBestFactor(outerEl, layout, targetRatio);

    // Commit the best fit.
    outerEl.width := Commit(originalOuterElWidth, bestFactor);

    // Scale the inner text up to fit the container.
    var innerRect := layout.innerRect(outerEl.width, outerEl.transform);
    var scaleWidth := container.width / innerRect.width;
    var scaleHeight := container.height / innerRect.height;
    var finalScale := Min(scaleWidth, scaleHeight);
    outerEl.transform := Some(finalScale);
  }

  /** Two runs with unchanged measurements leave the same styles as one. */
  method ResizeContentTwice(containerEl: Option<Box>, outerEl: Style, layout: Layout)
    returns (ghost afterFirst: (Option<real>, Option<real>))
    modifies outerEl
    ensures (outerEl.width, outerEl.transform) == afterFirst
  {
    var _ := ResizeContent(containerEl, outerEl, true, layout);
    afterFirst := (outerEl.width, outerEl.transform);
    var _ := ResizeContent(containerEl, outerEl, true, layout);
  }

  /** A layout whose every candidate has exactly the container's aspect ratio
      ties every step with the first, so no width is committed. */
  lemma ConstantRatioCommitsNoWidth(layout: Layout, container: Box)
    requires forall w :: Ratio(layout.outerBox(w)) == Ratio(container)
    ensures Commit(Natural(layout), BestFactor(Distances(layout, Ratio(container)))) == None
  {
    var ds := Distances(layout, Ratio(container));
    forall k | 0 <= k < 100
      ensures ds[k] == ds[99]
    {
      assert ds[k] == 0.0 && ds[99] == 0.0;
    }
    AllTiedRecordsNothing(ds);
  }
}
