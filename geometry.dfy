/** Boxes measured by the browser's layout engine, and the uniform scale that
    fits one box into another. Both the Embiggen component and the older App
    component end with this fit-to-container step. */
module Geometry {

  /** A length the layout engine reports for a mounted, non-empty element.
      The components never guard against a zero length, so the model only
      admits positive ones. */
  type Positive = r: real | r > 0.0 witness 1.0

  /** An element's rendered size in pixels (offsetWidth/offsetHeight or a
      bounding client rectangle). */
  datatype Box = Box(width: Positive, height: Positive)

  function Min(a: real, b: real): (m: real)
    ensures m <= a && m <= b
    ensures m == a || m == b
  {
    if a <= b then a else b
  }

  /** Aspect ratio of a box, width over height. */
  function Ratio(b: Box): (r: real)
    ensures r > 0.0
  {
    b.width / b.height
  }

  /** The uniform scale that makes `content` as large as possible inside
      `container`: the smaller of the two per-axis ratios. The scaled content
      never overflows either axis and is flush on at least one. */
  function FitScale(container: Box, content: Box): (s: real)
    ensures s > 0.0
    ensures content.width * s <= container.width
    ensures content.height * s <= container.height
    ensures content.width * s == container.width || content.height * s == container.height
  {
    var scaleWidth := container.width / content.width;
    var scaleHeight := container.height / content.height;
    assert content.width * scaleWidth == container.width;
    assert content.height * scaleHeight == container.height;
    Min(scaleWidth, scaleHeight)
  }

  /** No larger uniform scale fits: any scale under which the content stays
      inside the container is at most FitScale. */
  lemma FitScaleIsLargest(container: Box, content: Box, t: real)
    requires content.width * t <= container.width
    requires content.height * t <= container.height
    ensures t <= FitScale(container, content)
  {
    var s := FitScale(container, content);
    if content.width * s == container.width {
      assert content.width * t <= content.width * s;
    } else {
      assert content.height * t <= content.height * s;
    }
  }
}
