/** The grayscale converter: 8-bit or 16-bit samples, reshaped into `height`
    rows of `width` samples. It has no size check of its own; the reshape
    refuses a buffer that does not fill the grid. */
module Gray {
  import opened Common
  import opened Samples
  import opened Tensor

  /** Bit depth 8 reads one byte per sample, 16 reads two bytes per sample in
      `order`; every other depth is refused. */
  function SelectDtype(bitDepth: int, order: ByteOrder): (r: Result<Dtype>)
    ensures r.Success? <==> bitDepth == 8 || bitDepth == 16
    ensures r.Success? ==> ItemSize(r.value) * 8 == bitDepth
    ensures bitDepth == 8 ==> r.value == UInt8
    ensures bitDepth == 16 ==> r.value == UInt16(order)
    ensures r.Failure? ==> r.error == UnsupportedBitDepth
  {
    if bitDepth == 8 then Success(UInt8)
    else if bitDepth == 16 then Success(UInt16(order))
    else Failure(UnsupportedBitDepth)
  }

  /** From the bit-depth dispatch to the reshaped grid. An unsupported depth is
      refused whatever the file holds and whether or not it can be read; a
      readable file is decoded and cut into rows, and a sample count other
      than `width * height` fails in the reshape. On success the grid holds
      the decoded samples in row-major order. */
  function Convert(order: ByteOrder, file: RawFile, width: nat, height: nat, bitDepth: int := 8): (r: Result<seq<seq<nat>>>)
    requires file.Readable? && bitDepth == 16 ==> |file.bytes| % 2 == 0
    ensures bitDepth != 8 && bitDepth != 16 ==> r == Failure(UnsupportedBitDepth)
    ensures (bitDepth == 8 || bitDepth == 16) && file.Unreadable? ==> r == Failure(ReadFailed)
    ensures r.Success? ==> (bitDepth == 8 || bitDepth == 16) && file.Readable?
    ensures (bitDepth == 8 || bitDepth == 16) && file.Readable? ==>
      var s := Decode(if bitDepth == 8 then UInt8 else UInt16(order), file.bytes);
      && (r.Success? <==> |s| == height * width)
      && (r.Failure? ==> r.error == ShapeMismatch(|s|, [height, width]))
      && (r.Success? ==> IsGrid(r.value, height, width) && Flatten2(r.value) == s)
      && (r.Success? ==> forall row, col :: 0 <= row < height && 0 <= col < width ==>
            Offset2(width, row, col) < |s| && r.value[row][col] == s[Offset2(width, row, col)])
  {
    match SelectDtype(bitDepth, order)
    case Failure(e) => Failure(e)
    case Success(d) =>
      match file
      case Unreadable => Failure(ReadFailed)
      case Readable(bytes) =>
        var samples := Decode(d, bytes);
        TryReshape2(samples, height, width)
  }

  /** The whole of `convert_raw_to_png`: the conversion, then the image save
      and the one line reported. `saved` says whether building the image and
      writing the PNG complete. */
  function Run(inputPath: string, outputPath: string, order: ByteOrder, file: RawFile,
               width: nat, height: nat, saved: bool, bitDepth: int := 8): (rep: Report)
    requires file.Readable? && bitDepth == 16 ==> |file.bytes| % 2 == 0
    ensures rep.input == inputPath
    ensures rep.Converted? <==> Convert(order, file, width, height, bitDepth).Success? && saved
    ensures rep.Converted? ==> rep.output == outputPath
    ensures rep.Failed? ==>
      rep.reason == (var r := Convert(order, file, width, height, bitDepth); if r.Failure? then r.error else SaveFailed)
  {
    Finish(inputPath, outputPath, Convert(order, file, width, height, bitDepth), saved)
  }
}
