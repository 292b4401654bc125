# Raw-to-PNG converter: a Dafny model of the conversion core

The repository has two command-line scripts. Each one turns a headerless raw
pixel buffer into a PNG image.

- `raw_to_png.py` handles grayscale buffers of 8-bit or 16-bit samples. It
  reshapes them into `height` rows of `width` samples.
- `raw_to_png_color.py` handles colour buffers of 8-bit samples. It checks the
  element count against `width * height * channels` (`channels` defaults to 3),
  then reshapes them into `height` rows of `width` pixels of `channels` samples.

Both scripts put every step in one `try` block. One catch-all handler reports
failure, and that message names the input path.

This project models the part of `convert_raw_to_png` that the scripts own.
It states and proves what that part promises.

- `common.dfy` (module `Common`) holds shared types: bytes, the error kinds, a
  step's `Result`, the input file as the converter sees it, and the reported
  outcome. It also holds `Finish`, which models the save step and the
  catch-all handler.
- `samples.dfy` (module `Samples`) holds the element types (`UInt8`, and
  `UInt16` with an explicit byte order). It reads a byte sequence as samples
  of one of these types, which is what `np.fromfile` does here. It also
  defines an encoder for 16-bit samples, the inverse of that decoding.
- `tensor.dfy` (module `Tensor`) holds numpy's default row-major (C-order)
  `reshape` into two or three dimensions, the flattening that undoes it, and
  the failing form of `reshape` used when the element count does not fill the
  shape.
- `raw_to_png.dfy` (module `Gray`) is the grayscale converter.
- `raw_to_png_color.dfy` (module `Color`) is the colour converter.

The input file is a parameter of type `RawFile`: either all of its bytes, or a
failure to open or read it. Because the file is a parameter, the model can
state that a bad bit depth is refused before the file's content or
readability plays any part. Building the image and writing the PNG are
represented by one boolean parameter, `saved`, which says whether that step
completed.

`reshape((height, width))` at raw_to_png.py:21 fails unless the sample count
is exactly `height * width`; `Tensor.TryReshape2` models exactly that.

## Model

| member | source | states |
|---|---|---|
| `Gray.SelectDtype` | raw_to_png.py:9-14 | Succeeds exactly for bit depth 8 or 16. 8 selects one byte per sample and 16 selects two bytes (item size × 8 = bit depth). Every other depth gives `UnsupportedBitDepth`. |
| `Samples.Decode` | raw_to_png.py:18 | There is one sample per item-size bytes. Every sample is below 256 (8-bit) or 65536 (16-bit). For 8-bit the samples are the bytes themselves. For 16-bit, sample `i` is built from bytes `2i` and `2i+1` in the dtype's byte order. |
| `Samples.Decode16` | raw_to_png.py:12 | On an even-length byte sequence it gives half as many samples. Sample `i` is the join of bytes `2i` and `2i+1` and lies in `[0, 65535]`. |
| `Samples.Join` | raw_to_png.py:12 | The 16-bit value of two bytes is below 65536. In little-endian order the first byte is the low byte and the second the high byte; big-endian is the reverse. |
| `Samples.Split` | raw_to_png.py:12 | The inverse of `Join`: it gives the two bytes that hold a 16-bit value in the given order. |
| `Samples.DecodeEncode16` | raw_to_png.py:18 | Decoding the encoding of 16-bit samples gives back the samples. |
| `Samples.EncodeDecode16` | raw_to_png.py:18 | Encoding the decoded samples gives back the exact bytes, so the 16-bit reading drops, adds and alters nothing. |
| `Tensor.Reshape2` | raw_to_png.py:21 | Cutting `height * width` elements in row-major order yields exactly `height` rows of `width` elements. |
| `Tensor.Reshape2At` | raw_to_png.py:21 | Row-major indexing: `G[r][c] == flat[r*width + c]` for `r < height`, `c < width`, and that offset is in range. |
| `Tensor.FlattenReshape2` | raw_to_png.py:21 | Flattening the reshaped grid row by row gives back the flat sequence unchanged. |
| `Tensor.ReshapeFlatten2` | raw_to_png.py:21 | Reshaping the flattening of a `height`×`width` grid gives the same grid back, so a grid is determined by its shape and its row-major sequence. |
| `Tensor.TryReshape2` | raw_to_png.py:21 | Succeeds exactly when the element count is `height * width`. Otherwise it gives `ShapeMismatch` carrying the count and the shape. On success the grid has that shape, flattens back to the input and obeys row-major indexing. |
| `Tensor.Reshape3` | raw_to_png_color.py:24 | Cutting `height * width * channels` elements yields `height` rows of `width` pixels of `channels` samples. |
| `Tensor.Reshape3At` | raw_to_png_color.py:24 | Row-major indexing: `T[r][c][k] == flat[(r*width + c)*channels + k]` for all in-range `r, c, k`, and that offset is in range. |
| `Tensor.FlattenReshape3` | raw_to_png_color.py:24 | Flattening the reshaped tensor, pixel by pixel and row by row, gives back the flat sequence unchanged. |
| `Tensor.ReshapeFlatten3` | raw_to_png_color.py:24 | Reshaping the flattening of a `height`×`width`×`channels` tensor gives the same tensor back. |
| `Tensor.TryReshape3` | raw_to_png_color.py:24 | Succeeds exactly when the element count is `height * width * channels`. Otherwise it gives `ShapeMismatch`. On success the tensor has that shape, flattens back to the input and obeys row-major indexing. |
| `Gray.Convert` | raw_to_png.py:6-21 | An unsupported bit depth is refused whatever the file holds. With a supported depth, an unreadable file gives `ReadFailed`. A readable file is decoded. If the sample count is not `width * height`, the result is `ShapeMismatch` and there is no grid. Otherwise the grid has `height` rows of `width` samples, flattens back to the decoded samples and obeys `G[r][c] == s[r*width + c]`. |
| `Gray.Run` | raw_to_png.py:6-30 | The outcome always names the input path. Success is reported exactly when the conversion succeeded and the save completed, and then it names the output path. Otherwise the failure carries the first error raised. |
| `Color.SelectDtype` | raw_to_png_color.py:9-12 | Succeeds exactly for bit depth 8, selecting one byte per sample. Every other depth gives `UnsupportedBitDepth`. |
| `Color.Convert` | raw_to_png_color.py:6-24 | A bit depth other than 8 gives `UnsupportedBitDepth` whatever the file holds. Next, an unreadable file gives `ReadFailed`. Next, a byte count other than `width * height * channels` gives `SizeMismatch(expected, actual)`. Success happens exactly when all three checks pass, and no failure is ever `ShapeMismatch`, so the size check is sufficient. On success the tensor has shape `(height, width, channels)`, flattens back to the file's bytes and obeys `T[r][c][k] == bytes[(r*width + c)*channels + k]`. |
| `Color.Run` | raw_to_png_color.py:6-33 | The outcome always names the input path. Success is reported exactly when the conversion succeeded and the save completed, and then it names the output path. Otherwise the failure carries the first error raised. |
| `Common.Finish` | raw_to_png.py:24-30 | Models the save and the catch-all handler. A failed step's error is reported as a failure naming the input path. A successful step followed by a failed save is reported as `SaveFailed`. Success is reported only when both succeeded. The colour converter uses the same handler (raw_to_png_color.py:27-33). |

## Left out

- `main` in both scripts is not modelled: argument parsing, the input-file existence check, creating the output directory and the call itself. It is command-line and filesystem glue.
- Opening and reading the file (`open`, `np.fromfile`) is not modelled as I/O. The file enters as a `RawFile` value: its bytes, or unreadable.
- Gray.Convert: requires an even byte count when the bit depth is 16. What numpy does with a trailing odd byte is library behaviour, not this code's.
- Gray.Run: carries the same even-byte-count requirement for 16-bit input, for the same reason.
- Host-native byte order for 16-bit samples is not modelled. The scripts leave it undefined, so the model takes it as an explicit `ByteOrder` parameter carried by the `UInt16` dtype.
- `Image.fromarray` and `image.save` are not modelled: PIL's mode inference from the array's shape, and PNG encoding (compression, CRC, chunk layout). Whether this step completes is the boolean `saved`. A failure there, including PIL refusing an unusual channel count, becomes `SaveFailed`.
- Widths, heights and channel counts are natural numbers. The scripts accept negative values, and numpy reads `-1` in a shape as "infer this dimension". That is library behaviour outside the scripts' intent.
- The exact wording of printed messages is not modelled. Outcomes keep only the data the messages carry: input path, output path, expected and actual counts, and the kind of error.
