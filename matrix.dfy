/**
  The mutable matrix buffer: shape fields and a flat column-major buffer that
  `Set` and `ShuffleColumns` update in place.  Every other operation allocates
  a fresh result and fills it in index loops.  Each method is proved against
  the value-level function of `MatrixValues` that specifies it.
 */
module Matrices {
  import opened MatrixValues

  /** c * rows + rows stays inside a rows x cols buffer when c < cols. */
  lemma ColumnInBuffer(c: nat, rows: nat, cols: nat)
    requires c < cols
    ensures c * rows + rows <= rows * cols
  {
    MulMono(c + 1, cols, rows);
  }

  /** Swapping two positions of a permutation gives a permutation. */
  lemma SwapKeepsPermutation(p: seq<nat>, n: nat, i: nat, j: nat)
    requires IsPermutation(p, n) && i < n && j < n
    ensures IsPermutation(p[i := p[j]][j := p[i]], n)
  {
    var q := p[i := p[j]][j := p[i]];
    forall a, b | 0 <= a < b < n ensures q[a] != q[b] {
      var a' := if a == i then j else if a == j then i else a;
      var b' := if b == i then j else if b == j then i else b;
      assert q[a] == p[a'] && q[b] == p[b'];
    }
  }

  class Matrix {
    var rows: nat
    var cols: nat
    var data: seq<real>

    /** The matrix this buffer currently holds. */
    function Value(): Mat
      reads this
    {
      Mat(rows, cols, data)
    }

    predicate Valid()
      reads this
    {
      Value().Valid()
    }

    /** A zero-filled matrix of the given shape. */
    constructor (rows: nat, cols: nat)
      ensures Valid() && Value() == Zeros(rows, cols)
    {
      this.rows := rows;
      this.cols := cols;
      data := seq(rows * cols, _ => 0.0);
    }

    /** Entry (r, c), read at buffer position r + c * rows. */
    function Get(r: nat, c: nat): real
      reads this
      requires Valid() && r < rows && c < cols
    {
      Value().Get(r, c)
    }

    /** Writes entry (r, c) at buffer position r + c * rows. */
    method Set(r: nat, c: nat, v: real)
      requires Valid() && r < rows && c < cols
      modifies this
      ensures Valid() && Value() == Updated(old(Value()), r, c, v)
    {
      data := data[Index(r, c, rows, cols) := v];
    }

    /**
      Takes over the shape and contents of source: the effect of moving a
      newly computed matrix into a field that owns this one.
     */
    method Assign(source: Matrix)
      requires source.Valid()
      modifies this
      ensures Valid() && Value() == old(source.Value())
    {
      rows, cols, data := source.rows, source.cols, source.data;
    }

    /** A deep copy. */
    method Clone() returns (copy: Matrix)
      requires Valid()
      ensures fresh(copy) && copy.Valid() && copy.Value() == Value()
    {
      copy := new Matrix(rows, cols);
      copy.data := data;
    }

    method Transpose() returns (result: Matrix)
      requires Valid()
      ensures fresh(result) && result.Valid() && result.Value() == Transposed(Value())
    {
      result := new Matrix(cols, rows);
      for row := 0 to rows
        invariant result.Valid() && result.rows == cols && result.cols == rows
        invariant forall r: nat, c: nat :: r < row && c < cols ==> result.Get(c, r) == Get(r, c)
      {
        for col := 0 to cols
          invariant result.Valid() && result.rows == cols && result.cols == rows
          invariant forall r: nat, c: nat :: r < rows && c < cols && (r < row || (r == row && c < col)) ==>
                      result.Get(c, r) == Get(r, c)
        {
          result.Set(col, row, Get(row, col));
        }
      }
      var t := Transposed(Value());
      forall r: nat, c: nat | r < cols && c < rows ensures result.Value().Get(r, c) == t.Get(r, c) {
        assert result.Get(r, c) == Get(c, r);
      }
      Ext(result.Value(), t);
    }

    /** The Hadamard (entry-by-entry) product; both operands must have the same shape. */
    method ElementWiseMul(other: Matrix) returns (result: Matrix)
      requires Valid() && other.Valid() && rows == other.rows && cols == other.cols
      ensures fresh(result) && result.Valid() && result.Value() == Hadamard(Value(), other.Value())
    {
      result := new Matrix(rows, cols);
      for i := 0 to |data|
        invariant result.Valid() && result.rows == rows && result.cols == cols
        invariant forall k :: 0 <= k < i ==> result.data[k] == data[k] * other.data[k]
      {
        result.data := result.data[i := data[i] * other.data[i]];
      }
      assert result.data == Hadamard(Value(), other.Value()).data;
    }

    /** a + b for two matrices of the same shape. */
    method Add(other: Matrix) returns (result: Matrix)
      requires Valid() && other.Valid() && rows == other.rows && cols == other.cols
      ensures fresh(result) && result.Valid() && result.Value() == Plus(Value(), other.Value())
    {
      result := new Matrix(rows, cols);
      for i := 0 to |data|
        invariant result.Valid() && result.rows == rows && result.cols == cols
        invariant forall k :: 0 <= k < i ==> result.data[k] == data[k] + other.data[k]
      {
        result.data := result.data[i := data[i] + other.data[i]];
      }
      assert result.data == Plus(Value(), other.Value()).data;
    }

    /** a - b for two matrices of the same shape. */
    method Sub(other: Matrix) returns (result: Matrix)
      requires Valid() && other.Valid() && rows == other.rows && cols == other.cols
      ensures fresh(result) && result.Valid() && result.Value() == Minus(Value(), other.Value())
    {
      result := new Matrix(rows, cols);
      for i := 0 to |data|
        invariant result.Valid() && result.rows == rows && result.cols == cols
        invariant forall k :: 0 <= k < i ==> result.data[k] == data[k] - other.data[k]
      {
        result.data := result.data[i := data[i] - other.data[i]];
      }
      assert result.data == Minus(Value(), other.Value()).data;
    }

    /** Every entry multiplied by a scalar. */
    method Scale(scalar: real) returns (result: Matrix)
      requires Valid()
      ensures fresh(result) && result.Valid() && result.Value() == Scaled(Value(), scalar)
    {
      result := Clone();
      for i := 0 to |result.data|
        modifies result
        invariant result.rows == rows && result.cols == cols && |result.data| == |data|
        invariant forall k :: 0 <= k < i ==> result.data[k] == data[k] * scalar
        invariant forall k :: i <= k < |data| ==> result.data[k] == data[k]
      {
        result.data := result.data[i := result.data[i] * scalar];
      }
      ghost var expected := Scaled(Value(), scalar);
      assert |expected.data| == |data|;
      assert forall k :: 0 <= k < |data| ==> expected.data[k] == data[k] * scalar;
      assert result.data == expected.data;
    }

    /** The matrix product this * other; this.cols must equal other.rows. */
    method Mul(other: Matrix) returns (result: Matrix)
      requires Valid() && other.Valid() && cols == other.rows
      ensures fresh(result) && result.Valid() && result.Value() == Product(Value(), other.Value())
    {
      result := new Matrix(rows, other.cols);
      for i := 0 to rows
        invariant result.Valid() && result.rows == rows && result.cols == other.cols
        invariant forall i': nat, j': nat :: i' < i && j' < other.cols ==>
                    result.Get(i', j') == Dot(Value(), other.Value(), i', j', cols)
      {
        for j := 0 to other.cols
          invariant result.Valid() && result.rows == rows && result.cols == other.cols
          invariant forall i': nat, j': nat :: i' < rows && j' < other.cols && (i' < i || (i' == i && j' < j)) ==>
                      result.Get(i', j') == Dot(Value(), other.Value(), i', j', cols)
        {
          var sum := 0.0;
          for k := 0 to cols
            invariant sum == Dot(Value(), other.Value(), i, j, k)
          {
            sum := sum + Get(i, k) * other.Get(k, j);
          }
          result.Set(i, j, sum);
        }
      }
      Ext(result.Value(), Product(Value(), other.Value()));
    }

    /**
      A permutation of the column indices [0, cols).  The shuffle swaps
      position i with a position drawn below i + 1, for i from cols - 1 down
      to 1; `draws` supplies the random numbers, and a missing draw leaves the
      position in place.
     */
    method GenerateShuffledIndices(draws: seq<nat>) returns (indices: seq<nat>)
      ensures IsPermutation(indices, cols)
    {
      indices := Identity(cols);
      var i := cols;
      while i > 1
        invariant 0 <= i <= cols
        invariant IsPermutation(indices, cols)
      {
        i := i - 1;
        var k := cols - 1 - i;
        var j := if k < |draws| then draws[k] % (i + 1) else i;
        SwapKeepsPermutation(indices, cols, i, j);
        indices := indices[i := indices[j]][j := indices[i]];
      }
    }

    /**
      Reorders the columns: new column j is old column indices[j].  The new
      buffer is assembled by copying whole columns and then replaces the old one.
     */
    method ShuffleColumns(indices: seq<nat>)
      requires Valid() && ColumnSelection(rows, cols, indices)
      modifies this
      ensures Valid() && Value() == ShuffledCols(old(Value()), indices)
    {
      var stride := rows;
      var newData := seq(|data|, _ => 0.0);
      for newCol := 0 to |indices|
        invariant Value() == old(Value())
        invariant |newData| == |data|
        invariant forall j: nat, r: nat :: j < newCol && r < rows ==>
                    indices[j] < cols && newData[Index(r, j, rows, cols)] == Get(r, indices[j])
      {
        var oldCol := indices[newCol];
        var srcStart := oldCol * stride;
        var dstStart := newCol * stride;
        ColumnInBuffer(newCol, rows, cols);
        if rows > 0 { ColumnInBuffer(oldCol, rows, cols); }
        ghost var before := newData;
        newData := newData[..dstStart] + data[srcStart .. srcStart + stride] + newData[dstStart + stride ..];
        forall j: nat, r: nat | j <= newCol && r < rows
          ensures indices[j] < cols && newData[Index(r, j, rows, cols)] == Get(r, indices[j])
        {
          if j < newCol {
            ColumnBlock(r, j, newCol, rows);
            assert newData[Index(r, j, rows, cols)] == before[Index(r, j, rows, cols)];
          }
        }
      }
      ghost var was := Value();
      data := newData;
      Ext(Value(), ShuffledCols(was, indices));
    }

    /** A fresh matrix holding columns [startCol, endCol), copied column by column. */
    method CopyColumns(startCol: nat, endCol: nat) returns (batch: Matrix)
      requires Valid() && startCol <= endCol <= cols
      ensures fresh(batch) && batch.Valid() && batch.Value() == Columns(Value(), startCol, endCol)
    {
      var width := endCol - startCol;
      batch := new Matrix(rows, width);
      var stride := rows;
      for newC := 0 to width
        invariant batch.rows == rows && batch.cols == width && |batch.data| == rows * width
        invariant newC * rows <= rows * width
        invariant (startCol + newC) * rows <= |data|
        invariant batch.data[..newC * rows] == data[startCol * rows .. (startCol + newC) * rows]
      {
        var oldC := startCol + newC;
        var src := oldC * stride;
        var dst := newC * stride;
        ColumnInBuffer(newC, rows, width);
        ColumnInBuffer(oldC, rows, cols);
        Distribute(startCol, newC, rows);
        Distribute(newC, 1, rows);
        Distribute(startCol, newC + 1, rows);
        ghost var before := batch.data;
        batch.data := batch.data[..dst] + data[src .. src + stride] + batch.data[dst + stride ..];
        assert batch.data[..dst + stride] == before[..dst] + data[src .. src + stride];
      }
      assert batch.data == batch.data[..width * rows];
    }

    /**
      The column batches of at most batchSize columns, in order; batch b
      holds the columns starting at b * batchSize.
     */
    method SplitIntoBatches(batchSize: nat) returns (batches: seq<Matrix>)
      requires Valid() && batchSize > 0
      ensures |batches| == |Batches(Value(), batchSize)|
      ensures forall b :: 0 <= b < |batches| ==>
                fresh(batches[b]) && batches[b].Valid() && batches[b].Value() == Batches(Value(), batchSize)[b]
    {
      ghost var m := Value();
      ghost var done: seq<Mat> := [];
      batches := [];
      var startCol := 0;
      while startCol < cols
        invariant m == Value()
        invariant Batches(m, batchSize) == done + BatchesFrom(m, batchSize, Min(startCol, cols))
        invariant |done| == |batches|
        invariant forall b :: 0 <= b < |batches| ==>
                    fresh(batches[b]) && batches[b].Valid() && batches[b].Value() == done[b]
        decreases cols - startCol
      {
        var endCol := Min(startCol + batchSize, cols);
        var batch := CopyColumns(startCol, endCol);
        BatchesFromStep(m, batchSize, startCol);
        ghost var rest := BatchesFrom(m, batchSize, endCol);
        assert done + ([batch.Value()] + rest) == (done + [batch.Value()]) + rest;
        batches := batches + [batch];
        done := done + [batch.Value()];
        startCol := startCol + batchSize;
        assert Min(startCol, cols) == endCol;
      }
      assert BatchesFrom(m, batchSize, Min(startCol, cols)) == [];
    }
  }

  /** The rows x 1 column of row sums. */
  method SumCols(matrix: Matrix) returns (result: Matrix)
    requires matrix.Valid()
    ensures fresh(result) && result.Valid() && result.Value() == RowSums(matrix.Value())
  {
    result := new Matrix(matrix.rows, 1);
    for row := 0 to matrix.rows
      invariant result.Valid() && result.rows == matrix.rows && result.cols == 1
      invariant forall r: nat :: r < row ==> result.Get(r, 0) == RowSum(matrix.Value(), r, matrix.cols)
    {
      var sum := 0.0;
      for col := 0 to matrix.cols
        invariant sum == RowSum(matrix.Value(), row, col)
      {
        sum := sum + matrix.Get(row, col);
      }
      result.Set(row, 0, sum);
    }
    Ext(result.Value(), RowSums(matrix.Value()));
  }
}
