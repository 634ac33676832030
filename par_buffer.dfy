/** The pixel buffer (rendering/par_buffer.rs): a grid of colours that the
    renderer writes one row at a time and then copies to a surface. The
    per-row mutexes exist only for the parallel renderer and are left out,
    so the grid is one two-dimensional array. The surface is represented by
    the list of `draw_point` calls it receives. */
module ParBuffers {
  import C = Colors

  /** One `draw_point(x, y, colour)` call on the surface. */
  datatype DrawCall = DrawCall(x: nat, y: nat, color: C.GammaColor)

  /** `ParBuffer`: `rows` rows of `cols` colours; `data[y, x]` is the colour
      in column x of row y. */
  class ParBuffer {
    const rows: nat
    const cols: nat
    const data: array2<C.Color>

    /** The grid has the stated size. */
    predicate Valid() {
      data.Length0 == rows && data.Length1 == cols
    }

    /** `ParBuffer::new`: every cell starts black. */
    constructor (rows: nat, cols: nat)
      ensures this.rows == rows && this.cols == cols && Valid() && fresh(data)
      ensures forall y, x :: 0 <= y < rows && 0 <= x < cols ==> data[y, x] == C.Black()
    {
      var d := new C.Color[rows, cols];
      for y := 0 to rows
        invariant forall y', x :: 0 <= y' < y && 0 <= x < cols ==> d[y', x] == C.Black()
      {
        for x := 0 to cols
          invariant forall y', x' :: 0 <= y' < y && 0 <= x' < cols ==> d[y', x'] == C.Black()
          invariant forall x' :: 0 <= x' < x ==> d[y, x'] == C.Black()
        {
          d[y, x] := C.Black();
        }
      }
      this.rows := rows;
      this.cols := cols;
      data := d;
    }

    /** `lock_row(i)`: a handle on row i. An i past the last row makes the
        program panic on `unwrap`. */
    method LockRow(i: nat) returns (r: BufRow)
      requires Valid() && i < rows
      ensures r.buf == this && r.row == i && r.Valid()
    {
      r := new BufRow(this, i);
    }

    /** The calls that copying the first x cells of row y makes, in column
        order. */
    function RowLog(sqrt: real -> real, y: nat, x: nat): (log: seq<DrawCall>)
      requires Valid() && y < rows && x <= cols
      reads data
      ensures |log| == x
      ensures forall k :: 0 <= k < x ==> log[k] == DrawCall(k, y, C.Gamma(sqrt, data[y, k]))
    {
      if x == 0 then [] else RowLog(sqrt, y, x - 1) + [DrawCall(x - 1, y, C.Gamma(sqrt, data[y, x - 1]))]
    }

    /** The calls that copying the first y rows makes, row after row. */
    function BlitLog(sqrt: real -> real, y: nat): (log: seq<DrawCall>)
      requires Valid() && y <= rows
      reads data
    {
      if y == 0 then [] else BlitLog(sqrt, y - 1) + RowLog(sqrt, y - 1, cols)
    }

    /** `blit_to`: rows in the outer loop, columns in the inner one, one
        `draw_point` of the gamma-corrected colour per cell. The buffer is
        only read. */
    method BlitTo(sqrt: real -> real) returns (log: seq<DrawCall>)
      requires Valid()
      ensures log == BlitLog(sqrt, rows)
    {
      log := [];
      for y := 0 to rows
        invariant log == BlitLog(sqrt, y)
      {
        ghost var before := log;
        for x := 0 to cols
          invariant log == before + RowLog(sqrt, y, x)
        {
          log := log + [DrawCall(x, y, C.Gamma(sqrt, data[y, x]))];
        }
      }
    }

    /** Copying y rows makes as many calls as the first y rows hold cells. */
    lemma {:induction false} BlitLogLength(sqrt: real -> real, y: nat)
      requires Valid() && y <= rows
      ensures |BlitLog(sqrt, y)| == RowStart(y, cols)
    {
      if y > 0 {
        BlitLogLength(sqrt, y - 1);
      }
    }

    /** The call for cell (x, y) sits at position y * cols + x of the log,
        so every cell is drawn exactly once, in row-major order. */
    lemma BlitLogAt(sqrt: real -> real, y: nat)
      requires Valid() && y <= rows
      ensures forall y', x :: 0 <= y' < y && 0 <= x < cols ==>
        RowMajor(y', x, cols) < |BlitLog(sqrt, y)| &&
        BlitLog(sqrt, y)[RowMajor(y', x, cols)] == DrawCall(x, y', C.Gamma(sqrt, data[y', x]))
    {
      forall y', x | 0 <= y' < y && 0 <= x < cols
        ensures RowMajor(y', x, cols) < |BlitLog(sqrt, y)|
        ensures BlitLog(sqrt, y)[RowMajor(y', x, cols)] == DrawCall(x, y', C.Gamma(sqrt, data[y', x]))
      {
        BlitLogCell(sqrt, y, y', x);
      }
    }

    /** One cell at a time, by induction on the number of rows copied: the
        cell's call is in the rows copied before row y - 1, or at offset x
        within row y - 1. */
    lemma {:induction false} BlitLogCell(sqrt: real -> real, y: nat, y': nat, x: nat)
      requires Valid() && y <= rows && y' < y && x < cols
      ensures RowMajor(y', x, cols) < |BlitLog(sqrt, y)|
      ensures BlitLog(sqrt, y)[RowMajor(y', x, cols)] == DrawCall(x, y', C.Gamma(sqrt, data[y', x]))
    {
      if y' < y - 1 {
        BlitLogCell(sqrt, y - 1, y', x);
        BlitLogLength(sqrt, y - 1);
        EarlierRow(y', x, y - 1, cols);
        AtPrefix(BlitLog(sqrt, y), BlitLog(sqrt, y - 1), RowLog(sqrt, y - 1, cols), RowMajor(y', x, cols));
      } else {
        LastRowCell(sqrt, y, x);
      }
    }

    /** The calls for the last row copied follow those for the rows before. */
    lemma LastRowCell(sqrt: real -> real, y: nat, x: nat)
      requires Valid() && 0 < y <= rows && x < cols
      ensures RowMajor(y - 1, x, cols) < |BlitLog(sqrt, y)|
      ensures BlitLog(sqrt, y)[RowMajor(y - 1, x, cols)] == DrawCall(x, y - 1, C.Gamma(sqrt, data[y - 1, x]))
    {
      BlitLogLength(sqrt, y - 1);
      AtSuffix(BlitLog(sqrt, y), BlitLog(sqrt, y - 1), RowLog(sqrt, y - 1, cols), RowMajor(y - 1, x, cols), x);
    }
  }

  /** `BufRow`: the locked row `row` of `buf`. */
  class BufRow {
    const buf: ParBuffer
    const row: nat

    predicate Valid() {
      buf.Valid() && row < buf.rows
    }

    constructor (buf: ParBuffer, row: nat)
      requires buf.Valid() && row < buf.rows
      ensures this.buf == buf && this.row == row && Valid()
    {
      this.buf := buf;
      this.row := row;
    }

    /** `BufRow::set(j, c)`: overwrites cell j of the row and nothing else.
        A j past the last column makes the program panic on `unwrap`. */
    method Set(j: nat, c: C.Color)
      requires Valid() && j < buf.cols
      modifies buf.data
      ensures buf.data[row, j] == c
      ensures forall y, x :: 0 <= y < buf.rows && 0 <= x < buf.cols && (y != row || x != j) ==>
        buf.data[y, x] == old(buf.data[y, x])
    {
      buf.data[row, j] := c;
    }
  }

  /** Indexing the first part of a concatenation. */
  lemma AtPrefix<T>(c: seq<T>, a: seq<T>, b: seq<T>, i: nat)
    requires c == a + b && i < |a|
    ensures i < |c| && c[i] == a[i]
  {
  }

  /** Indexing the second part of a concatenation. */
  lemma AtSuffix<T>(c: seq<T>, a: seq<T>, b: seq<T>, i: nat, j: nat)
    requires c == a + b && i == |a| + j && j < |b|
    ensures i < |c| && c[i] == b[j]
  {
  }

  /** Where row y starts when rows of `cols` cells are laid end to end. */
  function RowStart(y: nat, cols: nat): nat {
    if y == 0 then 0 else RowStart(y - 1, cols) + cols
  }

  /** The position of cell (x, y) in a row-major order of rows of `cols`
      cells. */
  function RowMajor(y: nat, x: nat, cols: nat): nat {
    RowStart(y, cols) + x
  }

  /** The position is the usual y * cols + x. */
  lemma {:induction false} RowMajorIsProduct(y: nat, x: nat, cols: nat)
    ensures RowMajor(y, x, cols) == y * cols + x
  {
    if y > 0 {
      RowMajorIsProduct(y - 1, x, cols);
      assert y * cols == (y - 1) * cols + cols;
    }
  }

  /** A cell of an earlier row comes before row y starts. */
  lemma {:induction false} EarlierRow(y': nat, x: nat, y: nat, cols: nat)
    requires y' < y && x < cols
    ensures RowMajor(y', x, cols) < RowStart(y, cols)
  {
    if y' < y - 1 {
      EarlierRow(y', x, y - 1, cols);
    }
  }
}
