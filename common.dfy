/** Values shared by both converters: bytes, the error taxonomy, the result of a
    conversion step, the input file as the converters see it, and the single
    line each conversion reports. */
module Common {

  /** One byte of the input file. */
  type Byte = x: int | 0 <= x < 256

  /** Why a conversion failed. The Python scripts raise an exception for each of
      these and catch all of them in one handler. */
  datatype Error =
    | UnsupportedBitDepth
      /** The file could not be opened or read. */
    | ReadFailed
      /** The colour converter's explicit check: element count differs from the expected one. */
    | SizeMismatch(expected: nat, actual: nat)
      /** Row-major reshape refused: `size` elements do not fill `shape` exactly. */
    | ShapeMismatch(size: nat, shape: seq<nat>)
      /** Building the image or writing the PNG failed. */
    | SaveFailed

  datatype Result<T> = Success(value: T) | Failure(error: Error)

  /** The input file: either its whole content, or a failure to open or read it. */
  datatype RawFile = Readable(bytes: seq<Byte>) | Unreadable

  /** The one line a conversion reports: both outcomes name the input path. */
  datatype Report =
    | Converted(input: string, output: string)
    | Failed(input: string, reason: Error)

  /** The body of the `try` after the tensor is built, and the catch-all `except`:
      the image is saved only from a successful conversion, success is reported
      only when the save completed as well, and every error of every earlier step
      ends in the one failure outcome, which names the input path. `saved` says
      whether building the image and writing the PNG complete. */
  function Finish<T>(inputPath: string, outputPath: string, r: Result<T>, saved: bool): (rep: Report)
    ensures rep.input == inputPath
    ensures rep.Converted? <==> r.Success? && saved
    ensures rep.Converted? ==> rep.output == outputPath
    ensures r.Failure? ==> rep == Failed(inputPath, r.error)
    ensures r.Success? && !saved ==> rep == Failed(inputPath, SaveFailed)
  {
    match r
    case Failure(e) => Failed(inputPath, e)
    case Success(_) => if saved then Converted(inputPath, outputPath) else Failed(inputPath, SaveFailed)
  }
}
