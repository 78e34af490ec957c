/**
 * Images as numpy holds them (rows of pixels, every row equally wide) and the
 * part of Python's slice semantics that `img[r0:r1, c0:c1]` applies on each
 * axis: step 1, negative bounds counted from the end, bounds clamped to the
 * axis, and an empty range when the stop does not exceed the start.
 */
module Raster {

  /** A decoded image: `rows` is the list of pixel rows, each `width` pixels long. */
  datatype Image<T> = Image(width: nat, rows: seq<seq<T>>) {

    predicate Valid() {
      forall i :: 0 <= i < |rows| ==> |rows[i]| == width
    }

    function Height(): nat {
      |rows|
    }
  }

  /** An image whose rows all have the declared width, as every numpy image does. */
  type Raster<T> = img: Image<T> | img.Valid() witness Image(0, [])

  /** A half-open index range `[lo, hi)` along one axis. */
  datatype Span = Span(lo: nat, hi: nat) {

    function Length(): nat {
      if lo <= hi then hi - lo else 0
    }
  }

  /** Where Python puts one bound of a step-1 slice of a sequence of length `n`. */
  function ClampIndex(n: nat, i: int): (k: nat)
    ensures k <= n
    ensures 0 <= i <= n ==> k == i
    ensures n < i ==> k == n
    ensures i < 0 ==> (k == 0 <==> i + n <= 0)
  {
    if i < 0 then (if i + n < 0 then 0 else i + n)
    else if n < i then n
    else i
  }

  /** The index range that `s[start:stop]` selects from a sequence `s` of length `n`. */
  function Slice(n: nat, start: int, stop: int): (s: Span)
    ensures s.lo <= s.hi <= n
    ensures 0 <= start <= stop <= n ==> s == Span(start, stop)
    ensures 0 <= stop <= start || stop <= start < 0 ==> s.Length() == 0
  {
    var lo := ClampIndex(n, start);
    var hi := ClampIndex(n, stop);
    Span(lo, if hi < lo then lo else hi)
  }

  /** A bound of a slice with a negative value counted back from the end of the sequence. */
  function FromEnd(n: nat, i: int): int {
    if i < 0 then i + n else i
  }

  /**
   * Reference reading of Python's rule: `s[start:stop]` keeps exactly the
   * indices `k` of `s` with `start <= k < stop`, a negative bound being first
   * counted back from the end.
   */
  predicate Selects(n: nat, start: int, stop: int, k: int) {
    0 <= k < n && FromEnd(n, start) <= k < FromEnd(n, stop)
  }

  /** The clamped range of `Slice` holds exactly the indices the reference rule keeps. */
  lemma SliceSelects(n: nat, start: int, stop: int, k: int)
    ensures Slice(n, start, stop).lo <= k < Slice(n, start, stop).hi <==> Selects(n, start, stop, k)
  {
  }

  /** Every row cut down to the columns of `cols`. */
  function SliceColumns<T(==)>(rows: seq<seq<T>>, cols: Span): (r: seq<seq<T>>)
    requires cols.lo <= cols.hi
    requires forall i :: 0 <= i < |rows| ==> cols.hi <= |rows[i]|
    ensures |r| == |rows|
    ensures forall i :: 0 <= i < |r| ==> |r[i]| == cols.hi - cols.lo
    ensures forall i, j :: 0 <= i < |r| && 0 <= j < |r[i]| ==> r[i][j] == rows[i][cols.lo + j]
  {
    if rows == [] then [] else [rows[0][cols.lo..cols.hi]] + SliceColumns(rows[1..], cols)
  }

  /** `c` is the part of `img` that lies in the window `rows` x `cols`, pixel for pixel. */
  predicate IsCropOf<T(==)>(c: Raster<T>, img: Raster<T>, rows: Span, cols: Span)
    requires rows.lo <= rows.hi <= img.Height() && cols.lo <= cols.hi <= img.width
  {
    && c.Height() == rows.hi - rows.lo
    && c.width == cols.hi - cols.lo
    && forall i, j :: 0 <= i < c.Height() && 0 <= j < c.width ==>
         c.rows[i][j] == img.rows[rows.lo + i][cols.lo + j]
  }

  /** The sub-image inside a window, as numpy's `img[rows.lo:rows.hi, cols.lo:cols.hi]` gives it. */
  function Crop<T(==)>(img: Raster<T>, rows: Span, cols: Span): (c: Raster<T>)
    requires rows.lo <= rows.hi <= img.Height() && cols.lo <= cols.hi <= img.width
    ensures IsCropOf(c, img, rows, cols)
  {
    Image(cols.hi - cols.lo, SliceColumns(img.rows[rows.lo..rows.hi], cols))
  }

  /**
   * Basic indexing `img[rowStart:rowStop, colStart:colStop]`: a pixel of the
   * image survives exactly when Python's rule keeps its row and its column.
   */
  lemma {:induction false} IndexKeeps<T>(img: Raster<T>, rowStart: int, rowStop: int,
                                          colStart: int, colStop: int, r: int, col: int)
    requires 0 <= r < img.Height() && 0 <= col < img.width
    ensures var rows, cols := Slice(img.Height(), rowStart, rowStop), Slice(img.width, colStart, colStop);
            var c := Crop(img, rows, cols);
            (Selects(img.Height(), rowStart, rowStop, r) && Selects(img.width, colStart, colStop, col))
            <==>
            (exists i, j :: 0 <= i < c.Height() && 0 <= j < c.width && rows.lo + i == r && cols.lo + j == col
                            && c.rows[i][j] == img.rows[r][col])
  {
    var rows, cols := Slice(img.Height(), rowStart, rowStop), Slice(img.width, colStart, colStop);
    var c := Crop(img, rows, cols);
    SliceSelects(img.Height(), rowStart, rowStop, r);
    SliceSelects(img.width, colStart, colStop, col);
    if Selects(img.Height(), rowStart, rowStop, r) && Selects(img.width, colStart, colStop, col) {
      var i, j := r - rows.lo, col - cols.lo;
      assert 0 <= i < c.Height() && 0 <= j < c.width && rows.lo + i == r && cols.lo + j == col;
      assert c.rows[i][j] == img.rows[r][col];
    }
  }
}
