/** The colour converter: 8-bit samples only, an explicit size check, then a
    reshape into `height` rows of `width` pixels of `channels` samples. */
module Color {
  import opened Common
  import opened Samples
  import opened Tensor

  /** Samples per pixel when the caller gives none (RGB). */
  const DefaultChannels: nat := 3

  /** Only bit depth 8, one byte per sample, is accepted. */
  function SelectDtype(bitDepth: int): (r: Result<Dtype>)
    ensures r.Success? <==> bitDepth == 8
    ensures r.Success? ==> r.value == UInt8 && ItemSize(r.value) * 8 == bitDepth
    ensures r.Failure? ==> r.error == UnsupportedBitDepth
  {
    if bitDepth == 8 then Success(UInt8) else Failure(UnsupportedBitDepth)
  }

  /** From the bit-depth check to the reshaped tensor. The checks run in
      `convert_raw_to_png`'s order: bit depth, then reading the file, then the element count
      against `width * height * channels`. Once the count matches, the reshape
      cannot fail. On success the tensor holds the file's bytes in row-major
      order, `channels` samples per pixel. */
  function Convert(file: RawFile, width: nat, height: nat, channels: nat := DefaultChannels, bitDepth: int := 8): (r: Result<seq<seq<seq<nat>>>>)
    ensures bitDepth != 8 ==> r == Failure(UnsupportedBitDepth)
    ensures bitDepth == 8 && file.Unreadable? ==> r == Failure(ReadFailed)
    ensures bitDepth == 8 && file.Readable? && |file.bytes| != width * height * channels ==>
      r == Failure(SizeMismatch(width * height * channels, |file.bytes|))
    ensures r.Success? <==> bitDepth == 8 && file.Readable? && |file.bytes| == width * height * channels
    ensures r.Failure? ==> !r.error.ShapeMismatch?
    ensures r.Success? ==> IsTensor3(r.value, height, width, channels) && Flatten3(r.value) == file.bytes
    ensures r.Success? ==> forall row, col, k :: 0 <= row < height && 0 <= col < width && 0 <= k < channels ==>
      Offset3(width, channels, row, col, k) < |file.bytes| &&
      r.value[row][col][k] == file.bytes[Offset3(width, channels, row, col, k)]
  {
    match SelectDtype(bitDepth)
    case Failure(e) => Failure(e)
    case Success(d) =>
      match file
      case Unreadable => Failure(ReadFailed)
      case Readable(bytes) =>
        var samples := Decode(d, bytes);
        var expected := width * height * channels;
        if |samples| != expected then Failure(SizeMismatch(expected, |samples|))
        else TryReshape3(samples, height, width, channels)
  }

  /** The whole of `convert_raw_to_png`: the conversion, then the image save
      and the one line reported. `saved` says whether building the image and
      writing the PNG complete. */
  function Run(inputPath: string, outputPath: string, file: RawFile, width: nat, height: nat, saved: bool,
               channels: nat := DefaultChannels, bitDepth: int := 8): (rep: Report)
    ensures rep.input == inputPath
    ensures rep.Converted? <==> Convert(file, width, height, channels, bitDepth).Success? && saved
    ensures rep.Converted? ==> rep.output == outputPath
    ensures rep.Failed? ==>
      rep.reason == (var r := Convert(file, width, height, channels, bitDepth); if r.Failure? then r.error else SaveFailed)
  {
    Finish(inputPath, outputPath, Convert(file, width, height, channels, bitDepth), saved)
  }
}
