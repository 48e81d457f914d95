/** The `Point` and `Rect` value types of the Deadeye client library, as the
    target data uses them. */
module Deadeye {
  import opened Int32

  /** A pixel position; `y` grows downwards. */
  datatype Point = Point(x: i32, y: i32)

  /** A bounding box given by two corners and the area of the contour it
      bounds. Nothing forces `bottomRight` to lie below and right of
      `topLeft`. */
  datatype Rect = Rect(topLeft: Point, bottomRight: Point, contourArea: i32) {

    /** `width()`: horizontal extent, as an `Int` difference. */
    function Width(): i32 {
      Sub(bottomRight.x, topLeft.x)
    }

    /** `height()`: vertical extent, as an `Int` difference. */
    function Height(): i32 {
      Sub(bottomRight.y, topLeft.y)
    }
  }
}
