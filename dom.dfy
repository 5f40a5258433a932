/** The part of the DOM the components write: the inline style of an element. */
module Dom {

  datatype Option<T> = None | Some(value: T)

  /** The inline style declaration of an element. Only the two properties the
      components touch are modelled: `width` as a pixel length and `transform`
      as the factor of a `scale(...)` transform. `None` means the property is
      not set (removed, or set to null). */
  class Style {
    var width: Option<real>
    var transform: Option<real>

    constructor (width: Option<real>, transform: Option<real>)
      ensures this.width == width && this.transform == transform
    {
      this.width := width;
      this.transform := transform;
    }
  }
}
