/** Row-major (C-order) reshaping of a flat sample sequence into a grid of
    rows, or into rows of pixels of channels, as numpy's `reshape` does by
    default, and the flattening that undoes it. */
module Tensor {
  import opened Common

  /** `g` has `height` rows of `width` elements each. */
  predicate IsGrid<T>(g: seq<seq<T>>, height: nat, width: nat)
  {
    |g| == height && forall r :: 0 <= r < |g| ==> |g[r]| == width
  }

  /** `t` has `height` rows of `width` pixels of `channels` samples each. */
  predicate IsTensor3<T>(t: seq<seq<seq<T>>>, height: nat, width: nat, channels: nat)
  {
    |t| == height && forall r :: 0 <= r < |t| ==> IsGrid(t[r], width, channels)
  }

  /** The flat sequence cut into `height` consecutive rows of `width` elements. */
  function Reshape2<T>(flat: seq<T>, height: nat, width: nat): (g: seq<seq<T>>)
    requires |flat| == height * width
    ensures IsGrid(g, height, width)
    decreases height
  {
    if height == 0 then []
    else
      assert |flat| == (height - 1) * width + width;
      [flat[..width]] + Reshape2(flat[width..], height - 1, width)
  }

  /** The rows of a grid laid end to end. */
  function Flatten2<T>(g: seq<seq<T>>): seq<T>
  {
    if |g| == 0 then [] else g[0] + Flatten2(g[1..])
  }

  /** Where element `c` of row `r` sits in the flat sequence. */
  function Offset2(width: nat, r: nat, c: nat): nat
  {
    r * width + c
  }

  /** A grid of `height > 0` rows is its first row followed by `height - 1` rows. */
  lemma FirstRow(height: nat, width: nat)
    requires height > 0
    ensures height * width == (height - 1) * width + width
  {
  }

  /** Moving down one row moves `width` elements on. */
  lemma NextRowOffset(width: nat, r: nat, c: nat)
    requires r > 0
    ensures Offset2(width, r, c) == width + Offset2(width, r - 1, c)
  {
  }

  /** Row-major indexing: element `c` of row `r` is element `r * width + c`. */
  lemma {:induction false} Reshape2At<T>(flat: seq<T>, height: nat, width: nat, r: nat, c: nat)
    requires |flat| == height * width
    requires r < height && c < width
    ensures Offset2(width, r, c) < |flat|
    ensures Reshape2(flat, height, width)[r][c] == flat[Offset2(width, r, c)]
    decreases height
  {
    FirstRow(height, width);
    var g := Reshape2(flat, height, width);
    if r == 0 {
      assert g[0] == flat[..width];
    } else {
      var rest := flat[width..];
      Reshape2At(rest, height - 1, width, r - 1, c);
      assert g[r] == Reshape2(rest, height - 1, width)[r - 1];
      NextRowOffset(width, r, c);
    }
  }

  lemma Reshape2AtAll<T>(flat: seq<T>, height: nat, width: nat)
    requires |flat| == height * width
    ensures forall r, c :: 0 <= r < height && 0 <= c < width ==>
      Offset2(width, r, c) < |flat| && Reshape2(flat, height, width)[r][c] == flat[Offset2(width, r, c)]
  {
    forall r, c | 0 <= r < height && 0 <= c < width
      ensures Offset2(width, r, c) < |flat| && Reshape2(flat, height, width)[r][c] == flat[Offset2(width, r, c)]
    {
      Reshape2At(flat, height, width, r, c);
    }
  }

  /** Flattening a reshaped sequence gives it back unchanged. */
  lemma {:induction false} FlattenReshape2<T>(flat: seq<T>, height: nat, width: nat)
    requires |flat| == height * width
    ensures Flatten2(Reshape2(flat, height, width)) == flat
    decreases height
  {
    if height != 0 {
      assert |flat| == (height - 1) * width + width;
      var g := Reshape2(flat, height, width);
      assert g[0] == flat[..width] && g[1..] == Reshape2(flat[width..], height - 1, width);
      FlattenReshape2(flat[width..], height - 1, width);
      assert flat == flat[..width] + flat[width..];
    }
  }

  /** Reshaping the flattening of a grid gives the grid back: a grid is
      determined by its shape and its row-major sequence. */
  lemma {:induction false} ReshapeFlatten2<T>(g: seq<seq<T>>, height: nat, width: nat)
    requires IsGrid(g, height, width)
    ensures |Flatten2(g)| == height * width
    ensures Reshape2(Flatten2(g), height, width) == g
    decreases height
  {
    if height != 0 {
      var flat := Flatten2(g);
      ReshapeFlatten2(g[1..], height - 1, width);
      assert flat == g[0] + Flatten2(g[1..]);
      assert |flat| == height * width;
      assert flat[..width] == g[0] && flat[width..] == Flatten2(g[1..]);
      assert g == [g[0]] + g[1..];
    }
  }

  /** The flat sequence cut into `height` rows of `width * channels` samples,
      each row cut into `width` pixels of `channels` samples. */
  function Reshape3<T>(flat: seq<T>, height: nat, width: nat, channels: nat): (t: seq<seq<seq<T>>>)
    requires |flat| == height * width * channels
    ensures IsTensor3(t, height, width, channels)
  {
    assert |flat| == height * (width * channels);
    var rows := Reshape2(flat, height, width * channels);
    seq(height, r requires 0 <= r < height => Reshape2(rows[r], width, channels))
  }

  /** The pixels of a tensor laid end to end, row by row. */
  function Flatten3<T>(t: seq<seq<seq<T>>>): seq<T>
  {
    if |t| == 0 then [] else Flatten2(t[0]) + Flatten3(t[1..])
  }

  /** Where sample `k` of pixel `c` of row `r` sits in the flat sequence. */
  function Offset3(width: nat, channels: nat, r: nat, c: nat, k: nat): nat
  {
    (r * width + c) * channels + k
  }

  lemma PixelOffset(height: nat, width: nat, channels: nat, r: nat, c: nat, k: nat)
    requires r < height && c < width && k < channels
    ensures c * channels + k < width * channels
    ensures r * (width * channels) + (c * channels + k) == (r * width + c) * channels + k
    ensures (r * width + c) * channels + k < height * (width * channels)
  {
    assert c * channels + k < (c + 1) * channels;
    assert (c + 1) * channels <= width * channels;
    RowOffset(height, width * channels, r, c * channels + k);
  }

  /** Element `c` of row `r` lies inside a `height` by `width` grid. */
  lemma RowOffset(height: nat, width: nat, r: nat, c: nat)
    requires r < height && c < width
    ensures r * width + c < height * width
  {
    assert r * width + c < (r + 1) * width;
    assert (r + 1) * width <= height * width;
  }

  /** `height * width * channels` samples are `height` rows of `width * channels`
      samples. Stated apart so that the proofs using it need no nonlinear search. */
  lemma RowsOfPixels(height: nat, width: nat, channels: nat)
    ensures height * width * channels == height * (width * channels)
  {
  }

  /** Row-major indexing: sample `k` of pixel `c` of row `r` is element
      `(r * width + c) * channels + k`. */
  lemma Reshape3At<T>(flat: seq<T>, height: nat, width: nat, channels: nat, r: nat, c: nat, k: nat)
    requires |flat| == height * width * channels
    requires r < height && c < width && k < channels
    ensures Offset3(width, channels, r, c, k) < |flat|
    ensures Reshape3(flat, height, width, channels)[r][c][k] == flat[Offset3(width, channels, r, c, k)]
  {
    RowsOfPixels(height, width, channels);
    PixelOffset(height, width, channels, r, c, k);
    var rows := Reshape2(flat, height, width * channels);
    Reshape2At(flat, height, width * channels, r, c * channels + k);
    Reshape2At(rows[r], width, channels, c, k);
  }

  lemma Reshape3AtAll<T>(flat: seq<T>, height: nat, width: nat, channels: nat)
    requires |flat| == height * width * channels
    ensures forall r, c, k :: 0 <= r < height && 0 <= c < width && 0 <= k < channels ==>
      Offset3(width, channels, r, c, k) < |flat| &&
      Reshape3(flat, height, width, channels)[r][c][k] == flat[Offset3(width, channels, r, c, k)]
  {
    RowsOfPixels(height, width, channels);
    forall r, c, k | 0 <= r < height && 0 <= c < width && 0 <= k < channels
      ensures Offset3(width, channels, r, c, k) < |flat| &&
        Reshape3(flat, height, width, channels)[r][c][k] == flat[Offset3(width, channels, r, c, k)]
    {
      Reshape3At(flat, height, width, channels, r, c, k);
    }
  }

  /** Flattening a tensor pixel by pixel is flattening, row by row, the sequence
      of its flattened rows. */
  lemma {:induction false} Flatten3Rows<T>(t: seq<seq<seq<T>>>, rows: seq<seq<T>>)
    requires |t| == |rows|
    requires forall i :: 0 <= i < |t| ==> Flatten2(t[i]) == rows[i]
    ensures Flatten3(t) == Flatten2(rows)
    decreases |t|
  {
    if |t| != 0 {
      Flatten3Rows(t[1..], rows[1..]);
    }
  }

  /** Flattening a reshaped sequence gives it back unchanged. */
  lemma FlattenReshape3<T>(flat: seq<T>, height: nat, width: nat, channels: nat)
    requires |flat| == height * width * channels
    ensures Flatten3(Reshape3(flat, height, width, channels)) == flat
  {
    assert |flat| == height * (width * channels);
    var rows := Reshape2(flat, height, width * channels);
    var t := Reshape3(flat, height, width, channels);
    forall i | 0 <= i < height ensures Flatten2(t[i]) == rows[i] {
      FlattenReshape2(rows[i], width, channels);
    }
    Flatten3Rows(t, rows);
    FlattenReshape2(flat, height, width * channels);
  }

  /** Reshaping the flattening of a tensor gives the tensor back. */
  lemma ReshapeFlatten3<T>(t: seq<seq<seq<T>>>, height: nat, width: nat, channels: nat)
    requires IsTensor3(t, height, width, channels)
    ensures |Flatten3(t)| == height * width * channels
    ensures Reshape3(Flatten3(t), height, width, channels) == t
  {
    RowsOfPixels(height, width, channels);
    var rows := seq(height, i requires 0 <= i < height => Flatten2(t[i]));
    forall i | 0 <= i < height
      ensures |rows[i]| == width * channels && Reshape2(rows[i], width, channels) == t[i]
    {
      ReshapeFlatten2(t[i], width, channels);
    }
    Flatten3Rows(t, rows);
    ReshapeFlatten2(rows, height, width * channels);
    var flat := Flatten3(t);
    var t' := Reshape3(flat, height, width, channels);
    assert Reshape2(flat, height, width * channels) == rows;
    forall r | 0 <= r < height ensures t'[r] == t[r] {
    }
  }

  /** numpy's `reshape((height, width))`: refuses when the element count does
      not fill the shape exactly. */
  function TryReshape2<T>(flat: seq<T>, height: nat, width: nat): (r: Result<seq<seq<T>>>)
    ensures r.Success? <==> |flat| == height * width
    ensures r.Failure? ==> r.error == ShapeMismatch(|flat|, [height, width])
    ensures r.Success? ==> IsGrid(r.value, height, width) && Flatten2(r.value) == flat
    ensures r.Success? ==> forall row, col :: 0 <= row < height && 0 <= col < width ==>
      Offset2(width, row, col) < |flat| && r.value[row][col] == flat[Offset2(width, row, col)]
  {
    if |flat| != height * width then Failure(ShapeMismatch(|flat|, [height, width]))
    else
      FlattenReshape2(flat, height, width);
      Reshape2AtAll(flat, height, width);
      Success(Reshape2(flat, height, width))
  }

  /** numpy's `reshape((height, width, channels))`: refuses when the element
      count does not fill the shape exactly. */
  function TryReshape3<T>(flat: seq<T>, height: nat, width: nat, channels: nat): (r: Result<seq<seq<seq<T>>>>)
    ensures r.Success? <==> |flat| == height * width * channels
    ensures r.Failure? ==> r.error == ShapeMismatch(|flat|, [height, width, channels])
    ensures r.Success? ==> IsTensor3(r.value, height, width, channels) && Flatten3(r.value) == flat
    ensures r.Success? ==> forall row, col, k :: 0 <= row < height && 0 <= col < width && 0 <= k < channels ==>
      Offset3(width, channels, row, col, k) < |flat| &&
      r.value[row][col][k] == flat[Offset3(width, channels, row, col, k)]
  {
    if |flat| != height * width * channels then Failure(ShapeMismatch(|flat|, [height, width, channels]))
    else
      FlattenReshape3(flat, height, width, channels);
      Reshape3AtAll(flat, height, width, channels);
      Success(Reshape3(flat, height, width, channels))
  }
}
