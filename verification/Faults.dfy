/** The reasons an operation on the wire can fail, and the texts the program gives for them. */
module Faults {
  import opened Bytes

  datatype Field = Images | State | InitialNoise | Task | Actions | Metrics | MetricName

  datatype ImageFault = UnsupportedFormat | InvalidImage | SmallStride | SmallData | LongName

  datatype Fault =
    | ShortHeader | BadMagic | BadVersion | BadHeaderSize | PayloadTooLarge
    | NoImages | TooLarge(field: Field) | NonFinite(field: Field) | BadImage(index: nat, fault: ImageFault)
    | ShortRequest | TooManyImages | ShortImageMetadata | UnsupportedImageFormat | InvalidDimensions
    | FieldsExceedPayload | ShortArray(field: Field) | ShortTask | ShortImageName | ImageExceedsPayload
    | TrailingRequestBytes
    | ShapeMismatch | EmptyMetricName | ShortResponse | ShortMetric | ShortMetricName | TrailingResponseBytes
    | PeerClosed | SocketError
    | NoClientImages | NoPixels(index: nat) | SmallClientStride(index: nat)
    | WrongRequestId
    | Said(text: bytes)

  /** A C++ `bool` return together with the out-parameter and the reason of a failure. */
  datatype Result<+T> = Ok(value: T) | Err(fault: Fault)

  function FieldName(f: Field): bytes {
    match f
    case Images => Ascii("images")
    case State => Ascii("state")
    case InitialNoise => Ascii("initial noise")
    case Task => Ascii("task")
    case Actions => Ascii("actions")
    case Metrics => Ascii("metrics")
    case MetricName => Ascii("metric name")
  }

  function ImageFaultText(f: ImageFault): bytes {
    match f
    case UnsupportedFormat => Ascii(" unsupported image format")
    case InvalidImage => Ascii(" invalid raw RGB image")
    case SmallStride => Ascii(" stride_bytes is smaller than width * channels")
    case SmallData => Ascii(" data is smaller than stride_bytes * height")
    case LongName => Ascii(" name too large")
  }

  /** The text that a fault puts into `error`. */
  function Message(f: Fault): bytes {
    match f
    case ShortHeader => Ascii("short header")
    case BadMagic => Ascii("bad magic")
    case BadVersion => Ascii("bad version")
    case BadHeaderSize => Ascii("bad header size")
    case PayloadTooLarge => Ascii("payload too large")
    case NoImages => Ascii("predict request requires at least one image")
    case TooLarge(field) => FieldName(field) + Ascii(" too large")
    case NonFinite(field) => FieldName(field) + Ascii(" contains a non-finite value")
    case BadImage(i, fault) => Ascii("image[") + Decimal(i) + Ascii("]") + ImageFaultText(fault)
    case ShortRequest => Ascii("short predict request")
    case TooManyImages => Ascii("image count exceeds predict request metadata")
    case ShortImageMetadata => Ascii("short image metadata")
    case UnsupportedImageFormat => Ascii("unsupported image format")
    case InvalidDimensions => Ascii("invalid raw RGB dimensions")
    case FieldsExceedPayload => Ascii("predict request fields exceed payload")
    case ShortArray(field) =>
      if field == Actions then Ascii("short action array") else Ascii("short ") + FieldName(field) + Ascii(" array")
    case ShortTask => Ascii("short task string")
    case ShortImageName => Ascii("short image name")
    case ImageExceedsPayload => Ascii("image length exceeds payload")
    case TrailingRequestBytes => Ascii("trailing bytes in predict request")
    case ShapeMismatch => Ascii("action shape does not match action count")
    case EmptyMetricName => Ascii("metric name is empty")
    case ShortResponse => Ascii("short predict response")
    case ShortMetric => Ascii("short metric")
    case ShortMetricName => Ascii("short metric name")
    case TrailingResponseBytes => Ascii("trailing bytes in predict response")
    case PeerClosed => Ascii("peer closed connection")
    case SocketError => Ascii("socket error")
    case NoClientImages => Ascii("observation.images must contain at least one image")
    case NoPixels(i) => Ascii("observation.images[") + Decimal(i) + Ascii("] must be non-empty RAW_RGB_U8")
    case SmallClientStride(i) =>
      Ascii("observation.images[") + Decimal(i) + Ascii("].stride_bytes is smaller than width * 3")
    case WrongRequestId => Ascii("response request_id mismatch")
    case Said(text) => text
  }
}
