/** Row-major grid indexing shared by every pass of the island generator.
    A board of `w` columns and `n` cells (n = w * h) stores cell (x, y) at
    index y * w + x. The interior is every cell that is not on the one-cell
    border; all generation passes visit exactly the interior, row by row. */
module Grid {

  /** Cell `i` of a board with `w` columns and `n` cells lies off the border:
      1 <= y <= h - 2 (as `w <= i` and `i + w < n`) and 1 <= x <= w - 2. */
  predicate Interior(w: int, n: int, i: int)
  {
    0 < w && w <= i && i + w < n && 0 < i % w < w - 1
  }

  /** The four neighbours of cell `i`, in the order the source lists its
      direction vectors: (0,-1) north, (1,0) east, (0,1) south, (-1,0) west. */
  function Nbr(w: int, i: int, d: int): (j: int)
    requires 0 <= d < 4
    ensures j == i - w || j == i + 1 || j == i + w || j == i - 1
  {
    if d == 0 then i - w else if d == 1 then i + 1 else if d == 2 then i + w else i - 1
  }

  /** Together the four directions reach exactly the north, east, south and
      west neighbours. */
  lemma NbrDirections(w: int, i: int)
    ensures {Nbr(w, i, 0), Nbr(w, i, 1), Nbr(w, i, 2), Nbr(w, i, 3)} == {i - w, i + 1, i + w, i - 1}
  {
  }

  lemma NbrInBounds(w: int, n: int, i: int, d: int)
    requires Interior(w, n, i) && 0 <= d < 4
    ensures 0 <= Nbr(w, i, d) < n
  {
  }

  /** The index of (x, y) determines its coordinates back: x = i % w and y = i / w. */
  lemma {:induction false} IndexCoords(w: int, x: int, y: int)
    requires 0 <= x < w && 0 <= y
    ensures (y * w + x) % w == x && (y * w + x) / w == y
  {
    var i := y * w + x;
    var q, r := i / w, i % w;
    assert i == q * w + r && 0 <= r < w;
    assert (q - y) * w == x - r;
    MulSign(q - y, w);
  }

  lemma MulSign(a: int, w: int)
    requires w > 0
    ensures a >= 1 ==> a * w >= w
    ensures a <= -1 ==> a * w <= -w
  {
  }

  /** Which loop coordinates give an interior index: exactly 1 <= x <= w-2
      and 1 <= y <= h-2, the ranges of the source's nested loops. */
  lemma {:induction false} CellIndex(w: int, h: int, x: int, y: int)
    requires 0 <= x < w && 0 <= y < h
    ensures 0 <= y * w + x < w * h
    ensures y * w + w == (y + 1) * w
    ensures Interior(w, w * h, y * w + x) <==> (0 < x < w - 1 && 0 < y < h - 1)
  {
    IndexCoords(w, x, y);
    var i := y * w + x;
    assert (y + 1) * w == y * w + w;
    assert h * w == (h - 1) * w + w;
    if y < h - 1 {
      assert y * w + w <= (h - 1) * w by { MulMono(y + 1, h - 1, w); }
    } else {
      assert y == h - 1;
    }
    if y >= 1 {
      assert y * w >= w by { MulSign(y, w); }
    } else {
      assert y * w == 0;
    }
  }

  lemma MulMono(a: int, b: int, w: int)
    requires a <= b && w > 0
    ensures a * w <= b * w
  {
  }

  /** `a` is `orig` with the interior cells below `bound` replaced by `spec`:
      the invariant of a row-major pass that has reached index `bound`. */
  ghost predicate Done<T>(a: seq<T>, orig: seq<T>, spec: seq<T>, w: int, bound: int)
  {
    |a| == |orig| == |spec| &&
    forall j :: 0 <= j < |a| ==> a[j] == (if Interior(w, |a|, j) && j < bound then spec[j] else orig[j])
  }

  lemma DoneStart<T>(a: seq<T>, spec: seq<T>, w: int, bound: int)
    requires |a| == |spec| && bound <= w
    ensures Done(a, a, spec, w, bound)
  {
  }

  /** Passing a border index changes nothing. */
  lemma DoneSkip<T>(a: seq<T>, orig: seq<T>, spec: seq<T>, w: int, bound: int)
    requires Done(a, orig, spec, w, bound) && !Interior(w, |a|, bound)
    ensures Done(a, orig, spec, w, bound + 1)
  {
  }

  /** Writing the specified value at the interior index `bound` advances the pass. */
  lemma DoneWrite<T>(a: seq<T>, a': seq<T>, orig: seq<T>, spec: seq<T>, w: int, bound: int)
    requires Done(a, orig, spec, w, bound) && Interior(w, |a|, bound)
    requires |a'| == |a| && a'[bound] == spec[bound]
    requires forall j :: 0 <= j < |a| && j != bound ==> a'[j] == a[j]
    ensures Done(a', orig, spec, w, bound + 1)
  {
  }

  /** Once the pass is past the last interior row the array is the full result. */
  lemma DoneEnd<T>(a: seq<T>, orig: seq<T>, spec: seq<T>, w: int, bound: int)
    requires Done(a, orig, spec, w, bound) && bound + w >= |a|
    ensures a == seq(|a|, j requires 0 <= j < |a| => if Interior(w, |a|, j) then spec[j] else orig[j])
  {
  }

  /** The coordinates the nested `1 .. w-2`, `1 .. h-2` loops visit are interior. */
  lemma PassCell(w: int, h: int, x: int, y: int)
    requires 0 < x < w - 1 && 0 < y < h - 1
    ensures 0 <= y * w + x < w * h && Interior(w, w * h, y * w + x)
  {
    CellIndex(w, h, x, y);
  }

  /** Before the first interior row nothing is done yet. */
  lemma PassStart<T>(a: seq<T>, spec: seq<T>, w: int, h: int)
    requires 3 <= w && 3 <= h && |a| == |spec| == w * h
    ensures Done(a, a, spec, w, 1 * w + 1)
  {
    CellIndex(w, h, 0, 1);
  }

  /** Finishing a row (x reached w-1) moves the pass to the first interior
      cell of the next row, past the two border cells in between. */
  lemma PassRowEnd<T>(a: seq<T>, orig: seq<T>, spec: seq<T>, w: int, h: int, y: int)
    requires 3 <= w && 0 < y < h - 1 && |a| == w * h
    requires Done(a, orig, spec, w, y * w + (w - 1))
    ensures Done(a, orig, spec, w, (y + 1) * w + 1)
  {
    CellIndex(w, h, w - 1, y);
    CellIndex(w, h, 0, y + 1);
    DoneSkip(a, orig, spec, w, y * w + (w - 1));
    DoneSkip(a, orig, spec, w, (y + 1) * w);
  }

  /** After the last interior row the array holds `spec` on the interior and
      `orig` elsewhere. */
  lemma PassEnd<T>(a: seq<T>, orig: seq<T>, spec: seq<T>, w: int, h: int)
    requires 3 <= w && 3 <= h && |a| == w * h
    requires Done(a, orig, spec, w, (h - 1) * w + 1)
    ensures a == seq(|a|, j requires 0 <= j < |a| => if Interior(w, |a|, j) then spec[j] else orig[j])
  {
    CellIndex(w, h, 0, h - 1);
    DoneEnd(a, orig, spec, w, (h - 1) * w + 1);
  }

  /** The first row and the first cell of the second row are border cells. */
  lemma FirstRowBorder(w: int, n: int)
    requires 0 < w
    ensures forall j :: 0 <= j <= w ==> !Interior(w, n, j)
  {
    IndexCoords(w, 0, 1);
  }

  /** The last row, from its second cell on, is border. */
  lemma LastRowBorder(w: int, h: int)
    requires 3 <= w && 3 <= h
    ensures forall j :: (h - 1) * w + 1 <= j ==> !Interior(w, w * h, j)
  {
    CellIndex(w, h, 0, h - 1);
  }

  /** The two cells between consecutive interior rows are border. */
  lemma RowGapBorder(w: int, h: int, y: int)
    requires 3 <= w && 0 < y < h - 1
    ensures (y + 1) * w + 1 == y * w + (w - 1) + 2 < w * h
    ensures forall j :: y * w + (w - 1) <= j < (y + 1) * w + 1 ==> !Interior(w, w * h, j)
  {
    CellIndex(w, h, w - 1, y);
    CellIndex(w, h, 0, y + 1);
  }

  /** `r` starts an interior row of a board with `w` columns and `n` cells:
      a multiple of `w`, past the first row, with a row after it. */
  predicate RowStart(w: int, n: int, r: int)
  {
    3 <= w && w <= r && r + 2 * w <= n && r % w == 0
  }

  /** Row `y` of the nested loops starts an interior row. */
  lemma RowStartAt(w: int, h: int, y: int)
    requires 3 <= w && 0 < y < h - 1
    ensures RowStart(w, w * h, y * w) && y * w + w == (y + 1) * w
  {
    CellIndex(w, h, 0, y);
    assert (y + 2) * w <= h * w by { MulMono(y + 2, h, w); }
    assert (y + 2) * w == y * w + 2 * w;
    MulSign(y, w);
  }

  /** Column `x` of the row starting at `r` has index r + x. */
  lemma {:induction false} RowMod(w: int, r: int, x: int)
    requires 0 < w && 0 <= r && r % w == 0 && 0 <= x < w
    ensures (r + x) % w == x && (r + w) % w == 0
  {
    var q := r / w;
    assert r == q * w;
    IndexCoords(w, x, q);
    IndexCoords(w, 0, q + 1);
    assert (q + 1) * w == r + w;
  }

  /** Columns 1 .. w-2 of an interior row are interior cells. */
  lemma RowCell(w: int, n: int, r: int, x: int)
    requires RowStart(w, n, r) && 0 < x < w - 1
    ensures 0 <= r + x < n && Interior(w, n, r + x)
  {
    RowMod(w, r, x);
  }

  /** Finishing an interior row (column w-1 reached) moves the pass past the
      two border cells to the first interior cell of the next row. */
  lemma RowEnd<T>(a: seq<T>, orig: seq<T>, spec: seq<T>, w: int, r: int)
    requires RowStart(w, |a|, r)
    requires Done(a, orig, spec, w, r + (w - 1))
    ensures Done(a, orig, spec, w, r + w + 1)
  {
    RowMod(w, r, w - 1);
    DoneSkip(a, orig, spec, w, r + (w - 1));
    DoneSkip(a, orig, spec, w, r + w);
  }

  /** The last cell of an interior row and the first of the next are border
      cells, and the next row exists. */
  lemma RowGap(w: int, n: int, r: int)
    requires RowStart(w, n, r)
    ensures r + w + 1 < n
    ensures forall j :: r + (w - 1) <= j < r + w + 1 ==> !Interior(w, n, j)
  {
    RowMod(w, r, w - 1);
  }
}
