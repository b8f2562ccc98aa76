/** The records shared by every metric: decoded pixel buffers, the result
    record each metric returns, and the size-mismatch error. */
module Types {

  /** One sample of a Uint8ClampedArray or of a decoder's byte buffer. */
  type Byte = x: int | 0 <= x <= 255

  /** A decoded image: `data` is RGBA-interleaved (4 samples per pixel) or
      single-channel grayscale (1 sample per pixel), row-major. */
  datatype ImageDataLike = ImageDataLike(width: nat, height: nat, data: seq<Byte>)

  datatype Option<+T> = None | Some(value: T)

  /** What a metric reports: its name, its value and optional free-form details
      (only the perceptual-hash metric fills them, with the two hash strings). */
  datatype ComparisonResult = ComparisonResult(metric: string, value: real, details: Option<map<string, string>>)

  /** The errors the metric engine throws. `SizeMismatch` carries both
      (width, height) pairs, as the message of assertSameSize does. */
  datatype Error =
    | SizeMismatch(widthA: nat, heightA: nat, widthB: nat, heightB: nat)
    | NotMatchingAfterPreprocessing

  datatype Result<+T> = Success(value: T) | Failure(error: Error)

  datatype Outcome = Pass | Fail(error: Error)

  /** Number of pixels of an image. */
  function Area(img: ImageDataLike): nat {
    img.width * img.height
  }

  predicate SameSize(a: ImageDataLike, b: ImageDataLike) {
    a.width == b.width && a.height == b.height
  }

  /** The buffer holds at least one sample per pixel, so a single-channel
      metric that reads the first `Area` samples stays inside it. */
  predicate CoversArea(img: ImageDataLike) {
    Area(img) <= |img.data|
  }

  /** The inputs a pointwise grayscale metric is defined on: both buffers cover
      their area and, when the sizes agree (so that the metric goes on to
      divide by the area), the area is not zero. */
  predicate PointwiseInputs(a: ImageDataLike, b: ImageDataLike) {
    CoversArea(a) && CoversArea(b) && (SameSize(a, b) ==> Area(a) > 0)
  }
}
