/** The older App component's fit-to-container zoom: no wrap search, just the
    uniform scale that fits the inner element into the outer one. */
module App {
  import opened Geometry
  import opened Dom

  /** `zoom`: replace the inner element's transform with `scale(val)`; do
      nothing when the inner element is not mounted. */
  method Zoom(inner: Style?, val: real)
    modifies inner
    ensures inner != null ==> inner.transform == Some(val) && inner.width == old(inner.width)
  {
    if inner == null {
      return;
    }
    inner.transform := Some(val);
  }

  /** The scale `updateZoom` applies: 1 when the outer element is missing,
      otherwise the smaller of the width and height ratios of the outer box
      to the inner box. */
  function ZoomScale(outer: Option<Box>, inner: Box): (s: real)
    ensures s > 0.0
    ensures outer.None? ==> s == 1.0
    ensures outer.Some? ==>
      && inner.width * s <= outer.value.width
      && inner.height * s <= outer.value.height
      && (inner.width * s == outer.value.width || inner.height * s == outer.value.height)
  {
    if outer.None? then 1.0 else FitScale(outer.value, inner)
  }

  /** No larger scale keeps the inner box inside the outer one. */
  lemma ZoomScaleIsLargest(outer: Box, inner: Box, t: real)
    requires inner.width * t <= outer.width
    requires inner.height * t <= outer.height
    ensures t <= ZoomScale(Some(outer), inner)
  {
    FitScaleIsLargest(outer, inner, t);
  }

  /** `updateZoom`. `outer` is the outer element's offset box when it is
      mounted; `innerBox` is the inner element's offset box, read only when
      `inner` is mounted (offset sizes are not affected by the transform this
      method writes). A missing element resets the scale to exactly 1. */
  method UpdateZoom(outer: Option<Box>, inner: Style?, innerBox: Box)
    modifies inner
    ensures inner != null ==> inner.transform == Some(ZoomScale(outer, innerBox)) && inner.width == old(inner.width)
  {
    if outer.None? || inner == null {
      Zoom(inner, 1.0);
      return;
    }
    var zoomRatioWidth := outer.value.width / innerBox.width;
    var zoomRatioHeight := outer.value.height / innerBox.height;
    var zoomRatioMin := Min(zoomRatioWidth, zoomRatioHeight);
    Zoom(inner, zoomRatioMin);
  }

  /** Two runs with unchanged measurements leave the same transform as one. */
  method UpdateZoomTwice(outer: Option<Box>, inner: Style, innerBox: Box)
    returns (ghost afterFirst: Option<real>)
    modifies inner
    ensures inner.transform == afterFirst
  {
    UpdateZoom(outer, inner, innerBox);
    afterFirst := inner.transform;
    UpdateZoom(outer, inner, innerBox);
  }
}
