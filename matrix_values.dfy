/**
  Matrices as values.

  A matrix is a shape (rows, cols) and a flat buffer of rows * cols reals in
  column-major order: entry (r, c) lives at index r + c * rows.  Every
  operation on the mutable `Matrix` buffer is specified by one of the
  functions below, and the lemmas state what those functions mean entry by
  entry and how they relate to one another.
 */
module MatrixValues {

  // ---------------------------------------------------------------------
  // Column-major index arithmetic
  // ---------------------------------------------------------------------

  lemma MulMono(a: nat, b: nat, k: nat)
    requires a <= b
    ensures a * k <= b * k
  {}

  lemma DivModUnique(i: nat, rows: nat, q: nat, m: nat)
    requires 0 < rows && m < rows && i == q * rows + m
    ensures i / rows == q && i % rows == m
  {
    var q', m' := i / rows, i % rows;
    assert i == q' * rows + m';
    if q' < q { MulMono(q' + 1, q, rows); assert false; }
    if q < q' { MulMono(q + 1, q', rows); assert false; }
  }

  /** The buffer position of entry (r, c); it lies inside the buffer. */
  function Index(r: nat, c: nat, rows: nat, cols: nat): (i: nat)
    requires r < rows && c < cols
    ensures i < rows * cols
  {
    MulMono(c + 1, cols, rows);
    r + c * rows
  }

  /** A buffer position decodes back to its entry (r, c). */
  lemma IndexDecode(r: nat, c: nat, rows: nat, cols: nat)
    requires r < rows && c < cols
    ensures Index(r, c, rows, cols) % rows == r && Index(r, c, rows, cols) / rows == c
  {
    DivModUnique(r + c * rows, rows, c, r);
  }

  /** Distinct entries occupy distinct buffer positions. */
  lemma IndexInjective(r: nat, c: nat, r': nat, c': nat, rows: nat, cols: nat)
    requires r < rows && c < cols && r' < rows && c' < cols
    ensures Index(r, c, rows, cols) == Index(r', c', rows, cols) ==> r == r' && c == c'
  {
    IndexDecode(r, c, rows, cols);
    IndexDecode(r', c', rows, cols);
  }

  lemma IndexDecodeAll(rows: nat, cols: nat)
    ensures forall r: nat, c: nat :: r < rows && c < cols ==>
              Index(r, c, rows, cols) % rows == r && Index(r, c, rows, cols) / rows == c
  {
    forall r: nat, c: nat | r < rows && c < cols
      ensures Index(r, c, rows, cols) % rows == r && Index(r, c, rows, cols) / rows == c
    {
      IndexDecode(r, c, rows, cols);
    }
  }

  /** Every buffer position is the position of exactly one entry. */
  lemma Split(i: nat, rows: nat, cols: nat)
    requires i < rows * cols
    ensures 0 < rows && i % rows < rows && i / rows < cols
    ensures Index(i % rows, i / rows, rows, cols) == i
  {
    assert rows != 0;
    if i / rows >= cols { MulMono(cols, i / rows, rows); assert false; }
  }

  /** Column c occupies the buffer positions [c * rows, (c + 1) * rows). */
  lemma ColumnBlock(r: nat, c: nat, c': nat, rows: nat)
    requires r < rows && c < c'
    ensures c * rows <= r + c * rows < c' * rows
  {
    MulMono(c + 1, c', rows);
  }

  /** Distribution of a product over a sum, stated once so that callers need no nonlinear reasoning. */
  lemma Distribute(a: nat, b: nat, k: nat)
    ensures (a + b) * k == a * k + b * k
  {}

  function Min(a: nat, b: nat): nat { if a <= b then a else b }

  // ---------------------------------------------------------------------
  // The value type
  // ---------------------------------------------------------------------

  datatype Mat = Mat(rows: nat, cols: nat, data: seq<real>) {
    /** The buffer holds exactly rows * cols entries. */
    predicate Valid() { |data| == rows * cols }

    function Get(r: nat, c: nat): real
      requires Valid() && r < rows && c < cols
    {
      data[Index(r, c, rows, cols)]
    }

    /** The buffer entry at position r + c * rows, as a raw read: r need not lie below rows. */
    function Read(r: nat, c: nat): real
      requires r + c * rows < |data|
    {
      data[r + c * rows]
    }
  }

  /** Inside the shape a raw read is the entry itself. */
  lemma ReadIsGet(m: Mat, r: nat, c: nat)
    requires m.Valid() && r < m.rows && c < m.cols
    ensures r + c * m.rows < |m.data| && m.Read(r, c) == m.Get(r, c)
  {
    assert Index(r, c, m.rows, m.cols) == r + c * m.rows;
  }

  /** Two matrices of one shape that agree on every entry are equal. */
  lemma Ext(a: Mat, b: Mat)
    requires a.Valid() && b.Valid() && a.rows == b.rows && a.cols == b.cols
    requires forall r: nat, c: nat :: r < a.rows && c < a.cols ==> a.Get(r, c) == b.Get(r, c)
    ensures a == b
  {
    forall i | 0 <= i < |a.data| ensures a.data[i] == b.data[i] {
      Split(i, a.rows, a.cols);
      assert a.Get(i % a.rows, i / a.rows) == b.Get(i % a.rows, i / a.rows);
    }
  }

  /** The buffer of the first n columns of the matrix whose entry (r, c) is f(r, c), one column after another. */
  function Columnwise(rows: nat, n: nat, f: (nat, nat) --> real): seq<real>
    requires forall r: nat, c: nat :: r < rows && c < n ==> f.requires(r, c)
  {
    if n == 0 then [] else Columnwise(rows, n - 1, f) + seq(rows, (r: nat) requires r < rows => f(r, n - 1))
  }

  lemma {:induction false} ColumnwiseGet(rows: nat, n: nat, f: (nat, nat) --> real)
    requires forall r: nat, c: nat :: r < rows && c < n ==> f.requires(r, c)
    ensures |Columnwise(rows, n, f)| == rows * n
    ensures forall r: nat, c: nat :: r < rows && c < n ==> Columnwise(rows, n, f)[Index(r, c, rows, n)] == f(r, c)
  {
    if n > 0 {
      ColumnwiseGet(rows, n - 1, f);
      var prev := Columnwise(rows, n - 1, f);
      assert |prev| == (n - 1) * rows;
      Distribute(n - 1, 1, rows);
      forall r: nat, c: nat | r < rows && c < n ensures Columnwise(rows, n, f)[Index(r, c, rows, n)] == f(r, c) {
        if c < n - 1 {
          ColumnBlock(r, c, n - 1, rows);
          assert Index(r, c, rows, n) == Index(r, c, rows, n - 1);
        } else {
          assert Index(r, c, rows, n) == (n - 1) * rows + r;
        }
      }
    }
  }

  /** The matrix of shape rows x cols whose entry (r, c) is f(r, c); only this contract is visible to callers. */
  ghost function Build(rows: nat, cols: nat, f: (nat, nat) --> real): (m: Mat)
    requires forall r: nat, c: nat :: r < rows && c < cols ==> f.requires(r, c)
    ensures m.Valid() && m.rows == rows && m.cols == cols
    ensures forall r: nat, c: nat :: r < rows && c < cols ==> m.Get(r, c) == f(r, c)
  {
    ColumnwiseGet(rows, cols, f);
    var w := Mat(rows, cols, Columnwise(rows, cols, f));
    assert w.Valid() && w.rows == rows && w.cols == cols;
    var m: Mat :| m.Valid() && m.rows == rows && m.cols == cols
             && forall r: nat, c: nat :: r < rows && c < cols ==> m.Get(r, c) == f(r, c);
    m
  }

  // ---------------------------------------------------------------------
  // Construction and update
  // ---------------------------------------------------------------------

  /** A rows x cols matrix with every entry v. */
  function Constant(rows: nat, cols: nat, v: real): (m: Mat)
    ensures m.Valid() && m.rows == rows && m.cols == cols
    ensures forall r: nat, c: nat :: r < rows && c < cols ==> m.Get(r, c) == v
  {
    Mat(rows, cols, seq(rows * cols, _ => v))
  }

  function Zeros(rows: nat, cols: nat): (m: Mat)
    ensures m.Valid() && m.rows == rows && m.cols == cols
    ensures forall r: nat, c: nat :: r < rows && c < cols ==> m.Get(r, c) == 0.0
  {
    Constant(rows, cols, 0.0)
  }

  /** m with entry (r, c) replaced by v: that entry reads v, every other entry is unchanged. */
  function Updated(m: Mat, r: nat, c: nat, v: real): (u: Mat)
    requires m.Valid() && r < m.rows && c < m.cols
    ensures u.Valid() && u.rows == m.rows && u.cols == m.cols
    ensures u.Get(r, c) == v
    ensures forall r': nat, c': nat :: r' < m.rows && c' < m.cols && (r' != r || c' != c) ==>
              u.Get(r', c') == m.Get(r', c')
  {
    IndexDecodeAll(m.rows, m.cols);
    m.(data := m.data[Index(r, c, m.rows, m.cols) := v])
  }

  // ---------------------------------------------------------------------
  // Transpose
  // ---------------------------------------------------------------------

  ghost function Transposed(m: Mat): (t: Mat)
    requires m.Valid()
    ensures t.Valid() && t.rows == m.cols && t.cols == m.rows
    ensures forall r: nat, c: nat :: r < m.rows && c < m.cols ==> t.Get(c, r) == m.Get(r, c)
  {
    var w := Build(m.cols, m.rows, (r: nat, c: nat) requires r < m.cols && c < m.rows => m.Get(c, r));
    var t: Mat :| t.Valid() && t.rows == m.cols && t.cols == m.rows
                  && forall r: nat, c: nat :: r < m.rows && c < m.cols ==> t.Get(c, r) == m.Get(r, c);
    t
  }

  lemma TransposeInvolution(m: Mat)
    requires m.Valid()
    ensures Transposed(Transposed(m)) == m
  {
    var tt := Transposed(Transposed(m));
    forall r: nat, c: nat | r < m.rows && c < m.cols ensures tt.Get(r, c) == m.Get(r, c) {
      assert tt.Get(r, c) == Transposed(m).Get(c, r);
    }
    Ext(tt, m);
  }

  // ---------------------------------------------------------------------
  // Element-wise operations
  // ---------------------------------------------------------------------

  /** The matrix whose buffer entry i is op(a.data[i], b.data[i]). */
  function ElementWise(a: Mat, b: Mat, op: (real, real) -> real): (e: Mat)
    requires a.Valid() && b.Valid() && a.rows == b.rows && a.cols == b.cols
    ensures e.Valid() && e.rows == a.rows && e.cols == a.cols
    ensures forall r: nat, c: nat :: r < a.rows && c < a.cols ==> e.Get(r, c) == op(a.Get(r, c), b.Get(r, c))
  {
    Mat(a.rows, a.cols, seq(|a.data|, i requires 0 <= i < |a.data| => op(a.data[i], b.data[i])))
  }

  function Hadamard(a: Mat, b: Mat): (h: Mat)
    requires a.Valid() && b.Valid() && a.rows == b.rows && a.cols == b.cols
    ensures h.Valid() && h.rows == a.rows && h.cols == a.cols
    ensures forall r: nat, c: nat :: r < a.rows && c < a.cols ==> h.Get(r, c) == a.Get(r, c) * b.Get(r, c)
  {
    ElementWise(a, b, (x, y) => x * y)
  }

  function Plus(a: Mat, b: Mat): (s: Mat)
    requires a.Valid() && b.Valid() && a.rows == b.rows && a.cols == b.cols
    ensures s.Valid() && s.rows == a.rows && s.cols == a.cols
    ensures forall r: nat, c: nat :: r < a.rows && c < a.cols ==> s.Get(r, c) == a.Get(r, c) + b.Get(r, c)
  {
    ElementWise(a, b, (x, y) => x + y)
  }

  function Minus(a: Mat, b: Mat): (d: Mat)
    requires a.Valid() && b.Valid() && a.rows == b.rows && a.cols == b.cols
    ensures d.Valid() && d.rows == a.rows && d.cols == a.cols
    ensures forall r: nat, c: nat :: r < a.rows && c < a.cols ==> d.Get(r, c) == a.Get(r, c) - b.Get(r, c)
  {
    ElementWise(a, b, (x, y) => x - y)
  }

  function Scaled(m: Mat, s: real): (p: Mat)
    requires m.Valid()
    ensures p.Valid() && p.rows == m.rows && p.cols == m.cols
    ensures forall r: nat, c: nat :: r < m.rows && c < m.cols ==> p.Get(r, c) == m.Get(r, c) * s
  {
    Mat(m.rows, m.cols, seq(|m.data|, i requires 0 <= i < |m.data| => m.data[i] * s))
  }

  lemma PlusCommutes(a: Mat, b: Mat)
    requires a.Valid() && b.Valid() && a.rows == b.rows && a.cols == b.cols
    ensures Plus(a, b) == Plus(b, a)
  {
    Ext(Plus(a, b), Plus(b, a));
  }

  /** a - b is the negation of b - a. */
  lemma MinusAntiCommutes(a: Mat, b: Mat)
    requires a.Valid() && b.Valid() && a.rows == b.rows && a.cols == b.cols
    ensures Minus(a, b) == Scaled(Minus(b, a), -1.0)
  {
    Ext(Minus(a, b), Scaled(Minus(b, a), -1.0));
  }

  // ---------------------------------------------------------------------
  // Matrix product and row sums
  // ---------------------------------------------------------------------

  /** The sum over k < n of a(i, k) * b(k, j), accumulated in increasing k. */
  function Dot(a: Mat, b: Mat, i: nat, j: nat, n: nat): real
    requires a.Valid() && b.Valid() && a.cols == b.rows
    requires i < a.rows && j < b.cols && n <= a.cols
  {
    if n == 0 then 0.0 else Dot(a, b, i, j, n - 1) + a.Get(i, n - 1) * b.Get(n - 1, j)
  }

  ghost function Product(a: Mat, b: Mat): (p: Mat)
    requires a.Valid() && b.Valid() && a.cols == b.rows
    ensures p.Valid() && p.rows == a.rows && p.cols == b.cols
    ensures forall i: nat, j: nat :: i < a.rows && j < b.cols ==> p.Get(i, j) == Dot(a, b, i, j, a.cols)
  {
    var w := Build(a.rows, b.cols, (i: nat, j: nat) requires i < a.rows && j < b.cols => Dot(a, b, i, j, a.cols));
    var p: Mat :| p.Valid() && p.rows == a.rows && p.cols == b.cols
                  && forall i: nat, j: nat :: i < a.rows && j < b.cols ==> p.Get(i, j) == Dot(a, b, i, j, a.cols);
    p
  }

  /** Adding x * y and y * x to equal sums gives equal sums. */
  lemma AddCommutedTerm(s: real, t: real, x: real, y: real)
    requires s == t
    ensures s + y * x == t + x * y
  {
  }

  lemma {:induction false} DotTransposed(a: Mat, b: Mat, i: nat, j: nat, n: nat)
    requires a.Valid() && b.Valid() && a.cols == b.rows
    requires i < a.rows && j < b.cols && n <= a.cols
    ensures Dot(Transposed(b), Transposed(a), j, i, n) == Dot(a, b, i, j, n)
  {
    if n > 0 {
      var tb, ta := Transposed(b), Transposed(a);
      DotTransposed(a, b, i, j, n - 1);
      AddCommutedTerm(Dot(tb, ta, j, i, n - 1), Dot(a, b, i, j, n - 1), a.Get(i, n - 1), b.Get(n - 1, j));
    }
  }

  /** The transpose of a product is the product of the transposes in reverse order. */
  lemma ProductTransposed(a: Mat, b: Mat)
    requires a.Valid() && b.Valid() && a.cols == b.rows
    ensures Transposed(Product(a, b)) == Product(Transposed(b), Transposed(a))
  {
    var lhs, rhs := Transposed(Product(a, b)), Product(Transposed(b), Transposed(a));
    forall j: nat, i: nat | j < b.cols && i < a.rows ensures lhs.Get(j, i) == rhs.Get(j, i) {
      DotTransposed(a, b, i, j, a.cols);
    }
    Ext(lhs, rhs);
  }

  /** Three matrices whose product a * b * c is defined. */
  predicate Chain(a: Mat, b: Mat, c: Mat)
  {
    a.Valid() && b.Valid() && c.Valid() && a.cols == b.rows && b.cols == c.rows
  }

  /** The term a(i, l) * b(l, k) * c(k, j) of entry (i, j) of a * b * c. */
  function Term(a: Mat, b: Mat, c: Mat, i: nat, j: nat, l: nat, k: nat): real
    requires Chain(a, b, c) && i < a.rows && j < c.cols && l < a.cols && k < b.cols
  {
    a.Get(i, l) * b.Get(l, k) * c.Get(k, j)
  }

  /** The sum of Term(l, k) over l < n. */
  function SumOverL(a: Mat, b: Mat, c: Mat, i: nat, j: nat, n: nat, k: nat): real
    requires Chain(a, b, c) && i < a.rows && j < c.cols && n <= a.cols && k < b.cols
  {
    if n == 0 then 0.0 else SumOverL(a, b, c, i, j, n - 1, k) + Term(a, b, c, i, j, n - 1, k)
  }

  /** The sum of Term(l, k) over k < n. */
  function SumOverK(a: Mat, b: Mat, c: Mat, i: nat, j: nat, l: nat, n: nat): real
    requires Chain(a, b, c) && i < a.rows && j < c.cols && l < a.cols && n <= b.cols
  {
    if n == 0 then 0.0 else SumOverK(a, b, c, i, j, l, n - 1) + Term(a, b, c, i, j, l, n - 1)
  }

  /** The sum over k < m of the sums over l < n: the terms added column of b by column of b. */
  function SumKL(a: Mat, b: Mat, c: Mat, i: nat, j: nat, n: nat, m: nat): real
    requires Chain(a, b, c) && i < a.rows && j < c.cols && n <= a.cols && m <= b.cols
  {
    if m == 0 then 0.0 else SumKL(a, b, c, i, j, n, m - 1) + SumOverL(a, b, c, i, j, n, m - 1)
  }

  /** The sum over l < n of the sums over k < m: the terms added row of b by row of b. */
  function SumLK(a: Mat, b: Mat, c: Mat, i: nat, j: nat, n: nat, m: nat): real
    requires Chain(a, b, c) && i < a.rows && j < c.cols && n <= a.cols && m <= b.cols
  {
    if n == 0 then 0.0 else SumLK(a, b, c, i, j, n - 1, m) + SumOverK(a, b, c, i, j, n - 1, m)
  }

  /** A partial entry of a * b times c(k, j) is the sum of the matching terms. */
  lemma {:induction false} DotTimes(a: Mat, b: Mat, c: Mat, i: nat, j: nat, n: nat, k: nat)
    requires Chain(a, b, c) && i < a.rows && j < c.cols && n <= a.cols && k < b.cols
    ensures Dot(a, b, i, k, n) * c.Get(k, j) == SumOverL(a, b, c, i, j, n, k)
  {
    if n > 0 {
      DotTimes(a, b, c, i, j, n - 1, k);
      var d, x, y, z := Dot(a, b, i, k, n - 1), a.Get(i, n - 1), b.Get(n - 1, k), c.Get(k, j);
      assert (d + x * y) * z == d * z + x * y * z;
    }
  }

  /** a(i, l) times a partial entry of b * c is the sum of the matching terms. */
  lemma {:induction false} TimesDot(a: Mat, b: Mat, c: Mat, i: nat, j: nat, l: nat, n: nat)
    requires Chain(a, b, c) && i < a.rows && j < c.cols && l < a.cols && n <= b.cols
    ensures a.Get(i, l) * Dot(b, c, l, j, n) == SumOverK(a, b, c, i, j, l, n)
  {
    if n > 0 {
      TimesDot(a, b, c, i, j, l, n - 1);
      var d, x, y, z := Dot(b, c, l, j, n - 1), a.Get(i, l), b.Get(l, n - 1), c.Get(n - 1, j);
      assert x * (d + y * z) == x * d + x * y * z;
    }
  }

  lemma {:induction false} SumKLEmpty(a: Mat, b: Mat, c: Mat, i: nat, j: nat, m: nat)
    requires Chain(a, b, c) && i < a.rows && j < c.cols && m <= b.cols
    ensures SumKL(a, b, c, i, j, 0, m) == 0.0
  {
    if m > 0 { SumKLEmpty(a, b, c, i, j, m - 1); }
  }

  /** Taking l = n - 1 out of every inner sum of SumKL takes the row sum of l = n - 1 out of the whole. */
  lemma {:induction false} SumKLPeel(a: Mat, b: Mat, c: Mat, i: nat, j: nat, n: nat, m: nat)
    requires Chain(a, b, c) && i < a.rows && j < c.cols && 0 < n <= a.cols && m <= b.cols
    ensures SumKL(a, b, c, i, j, n, m) == SumKL(a, b, c, i, j, n - 1, m) + SumOverK(a, b, c, i, j, n - 1, m)
  {
    if m > 0 { SumKLPeel(a, b, c, i, j, n, m - 1); }
  }

  /** The two orders of summation agree. */
  lemma {:induction false} SwapSums(a: Mat, b: Mat, c: Mat, i: nat, j: nat, n: nat, m: nat)
    requires Chain(a, b, c) && i < a.rows && j < c.cols && n <= a.cols && m <= b.cols
    ensures SumKL(a, b, c, i, j, n, m) == SumLK(a, b, c, i, j, n, m)
  {
    if n == 0 {
      SumKLEmpty(a, b, c, i, j, m);
    } else {
      SwapSums(a, b, c, i, j, n - 1, m);
      SumKLPeel(a, b, c, i, j, n, m);
    }
  }

  /** The sum over k < m of (entry (i, k) of a * b) times c(k, j). */
  function ProductThen(a: Mat, b: Mat, c: Mat, i: nat, j: nat, m: nat): real
    requires Chain(a, b, c) && i < a.rows && j < c.cols && m <= b.cols
  {
    if m == 0 then 0.0 else ProductThen(a, b, c, i, j, m - 1) + Dot(a, b, i, m - 1, a.cols) * c.Get(m - 1, j)
  }

  /** The sum over l < n of a(i, l) times (entry (l, j) of b * c). */
  function ThenProduct(a: Mat, b: Mat, c: Mat, i: nat, j: nat, n: nat): real
    requires Chain(a, b, c) && i < a.rows && j < c.cols && n <= a.cols
  {
    if n == 0 then 0.0 else ThenProduct(a, b, c, i, j, n - 1) + a.Get(i, n - 1) * Dot(b, c, n - 1, j, b.cols)
  }

  /** Entry (i, j) of p * c, where row i of p is row i of a * b, as ProductThen. */
  lemma {:induction false} LeftNested(a: Mat, b: Mat, c: Mat, p: Mat, i: nat, j: nat, m: nat)
    requires Chain(a, b, c) && i < a.rows && j < c.cols && m <= b.cols
    requires p.Valid() && p.rows == a.rows && p.cols == b.cols
    requires forall k: nat :: k < b.cols ==> p.Get(i, k) == Dot(a, b, i, k, a.cols)
    ensures Dot(p, c, i, j, m) == ProductThen(a, b, c, i, j, m)
  {
    if m > 0 {
      LeftNested(a, b, c, p, i, j, m - 1);
      assert p.Get(i, m - 1) == Dot(a, b, i, m - 1, a.cols);
    }
  }

  /** Entry (i, j) of a * q, where column j of q is column j of b * c, as ThenProduct. */
  lemma {:induction false} RightNested(a: Mat, b: Mat, c: Mat, q: Mat, i: nat, j: nat, n: nat)
    requires Chain(a, b, c) && i < a.rows && j < c.cols && n <= a.cols
    requires q.Valid() && q.rows == b.rows && q.cols == c.cols
    requires forall l: nat :: l < b.rows ==> q.Get(l, j) == Dot(b, c, l, j, b.cols)
    ensures Dot(a, q, i, j, n) == ThenProduct(a, b, c, i, j, n)
  {
    if n > 0 {
      RightNested(a, b, c, q, i, j, n - 1);
      assert q.Get(n - 1, j) == Dot(b, c, n - 1, j, b.cols);
    }
  }

  /** ProductThen spreads into the terms, column of b by column of b. */
  lemma {:induction false} ProductThenTerms(a: Mat, b: Mat, c: Mat, i: nat, j: nat, m: nat)
    requires Chain(a, b, c) && i < a.rows && j < c.cols && m <= b.cols
    ensures ProductThen(a, b, c, i, j, m) == SumKL(a, b, c, i, j, a.cols, m)
  {
    if m > 0 {
      ProductThenTerms(a, b, c, i, j, m - 1);
      DotTimes(a, b, c, i, j, a.cols, m - 1);
    }
  }

  /** ThenProduct spreads into the terms, row of b by row of b. */
  lemma {:induction false} ThenProductTerms(a: Mat, b: Mat, c: Mat, i: nat, j: nat, n: nat)
    requires Chain(a, b, c) && i < a.rows && j < c.cols && n <= a.cols
    ensures ThenProduct(a, b, c, i, j, n) == SumLK(a, b, c, i, j, n, b.cols)
  {
    if n > 0 {
      ThenProductTerms(a, b, c, i, j, n - 1);
      TimesDot(a, b, c, i, j, n - 1, b.cols);
    }
  }

  /** The matrix product is associative. */
  lemma ProductAssociative(a: Mat, b: Mat, c: Mat)
    requires Chain(a, b, c)
    ensures Product(Product(a, b), c) == Product(a, Product(b, c))
  {
    var lhs, rhs := Product(Product(a, b), c), Product(a, Product(b, c));
    forall i: nat, j: nat | i < a.rows && j < c.cols ensures lhs.Get(i, j) == rhs.Get(i, j) {
      LeftNested(a, b, c, Product(a, b), i, j, b.cols);
      RightNested(a, b, c, Product(b, c), i, j, a.cols);
      ProductThenTerms(a, b, c, i, j, b.cols);
      ThenProductTerms(a, b, c, i, j, a.cols);
      SwapSums(a, b, c, i, j, a.cols, b.cols);
    }
    Ext(lhs, rhs);
  }

  /** The sum of the first n entries of row r. */
  function RowSum(m: Mat, r: nat, n: nat): real
    requires m.Valid() && r < m.rows && n <= m.cols
  {
    if n == 0 then 0.0 else RowSum(m, r, n - 1) + m.Get(r, n - 1)
  }

  /** The rows x 1 column whose entry r is the sum of row r. */
  ghost function RowSums(m: Mat): (s: Mat)
    requires m.Valid()
    ensures s.Valid() && s.rows == m.rows && s.cols == 1
    ensures forall r: nat :: r < m.rows ==> s.Get(r, 0) == RowSum(m, r, m.cols)
  {
    var w := Build(m.rows, 1, (r: nat, c: nat) requires r < m.rows && c < 1 => RowSum(m, r, m.cols));
    var s: Mat :| s.Valid() && s.rows == m.rows && s.cols == 1
                  && forall r: nat :: r < m.rows ==> s.Get(r, 0) == RowSum(m, r, m.cols);
    s
  }

  lemma {:induction false} RowSumIsDotWithOnes(m: Mat, r: nat, n: nat)
    requires m.Valid() && r < m.rows && n <= m.cols
    ensures RowSum(m, r, n) == Dot(m, Constant(m.cols, 1, 1.0), r, 0, n)
  {
    if n > 0 { RowSumIsDotWithOnes(m, r, n - 1); }
  }

  /** Summing the columns is multiplying by a column of ones. */
  lemma RowSumsIsProductWithOnes(m: Mat)
    requires m.Valid()
    ensures RowSums(m) == Product(m, Constant(m.cols, 1, 1.0))
  {
    var ones := Constant(m.cols, 1, 1.0);
    forall r: nat, c: nat | r < m.rows && c < 1 ensures RowSums(m).Get(r, c) == Product(m, ones).Get(r, c) {
      RowSumIsDotWithOnes(m, r, m.cols);
    }
    Ext(RowSums(m), Product(m, ones));
  }

  // ---------------------------------------------------------------------
  // Column shuffling
  // ---------------------------------------------------------------------

  /** One source column per target column; every source column must exist unless the matrix has no rows. */
  predicate ColumnSelection(rows: nat, cols: nat, idx: seq<nat>) {
    |idx| == cols && (rows == 0 || forall j :: 0 <= j < |idx| ==> idx[j] < cols)
  }

  /** A bijection on [0, n): n distinct values below n. */
  predicate IsPermutation(p: seq<nat>, n: nat) {
    && |p| == n
    && (forall j :: 0 <= j < n ==> p[j] < n)
    && (forall j, k :: 0 <= j < k < n ==> p[j] != p[k])
  }

  function Identity(n: nat): (p: seq<nat>)
    ensures IsPermutation(p, n)
    ensures forall j :: 0 <= j < n ==> p[j] == j
  {
    seq(n, j requires 0 <= j => j)
  }

  /** Column j of the result is column idx[j] of m. */
  ghost function ShuffledCols(m: Mat, idx: seq<nat>): (s: Mat)
    requires m.Valid() && ColumnSelection(m.rows, m.cols, idx)
    ensures s.Valid() && s.rows == m.rows && s.cols == m.cols
    ensures forall r: nat, j: nat :: r < m.rows && j < m.cols ==> idx[j] < m.cols && s.Get(r, j) == m.Get(r, idx[j])
  {
    var w := Build(m.rows, m.cols, (r: nat, j: nat) requires r < m.rows && j < m.cols => m.Get(r, idx[j]));
    var s: Mat :| s.Valid() && s.rows == m.rows && s.cols == m.cols
                  && forall r: nat, j: nat :: r < m.rows && j < m.cols ==> idx[j] < m.cols && s.Get(r, j) == m.Get(r, idx[j]);
    s
  }

  lemma ShuffleIdentity(m: Mat)
    requires m.Valid()
    ensures ShuffledCols(m, Identity(m.cols)) == m
  {
    Ext(ShuffledCols(m, Identity(m.cols)), m);
  }

  /** Shuffling by p and then by an inverse q of p restores the matrix. */
  lemma ShuffleUndo(m: Mat, p: seq<nat>, q: seq<nat>)
    requires m.Valid() && IsPermutation(p, m.cols) && IsPermutation(q, m.cols)
    requires forall j :: 0 <= j < m.cols ==> p[q[j]] == j
    ensures ShuffledCols(ShuffledCols(m, p), q) == m
  {
    var once := ShuffledCols(m, p);
    var twice := ShuffledCols(once, q);
    forall r: nat, j: nat | r < m.rows && j < m.cols ensures twice.Get(r, j) == m.Get(r, j) {
      assert twice.Get(r, j) == once.Get(r, q[j]) == m.Get(r, p[q[j]]);
    }
    Ext(twice, m);
  }

  // ---------------------------------------------------------------------
  // Splitting into column batches
  // ---------------------------------------------------------------------

  /** ceil(cols / k): one batch starts at each multiple of k below cols. */
  function NumBatches(cols: nat, k: nat): (n: nat)
    requires k > 0
    ensures cols <= n * k
    ensures n > 0 ==> (n - 1) * k < cols
  {
    var n := (cols + k - 1) / k;
    DivModUnique(cols + k - 1, k, n, (cols + k - 1) % k);
    if n > 0 then Distribute(n - 1, 1, k); n else n
  }

  lemma NumBatchesStep(cols: nat, k: nat)
    requires k > 0
    ensures cols == 0 ==> NumBatches(cols, k) == 0
    ensures 0 < cols <= k ==> NumBatches(cols, k) == 1
    ensures k < cols ==> NumBatches(cols, k) == 1 + NumBatches(cols - k, k)
  {
    if cols == 0 {
      DivModUnique(k - 1, k, 0, k - 1);
    } else if cols <= k {
      DivModUnique(cols + k - 1, k, 1, cols - 1);
    } else {
      var y := cols - k + k - 1;
      DivModUnique(y, k, y / k, y % k);
      DivModUnique(y + k, k, y / k + 1, y % k);
    }
  }

  /** The columns [lo, hi) of m: a contiguous piece of its buffer. */
  ghost function Columns(m: Mat, lo: nat, hi: nat): (s: Mat)
    requires m.Valid() && lo <= hi <= m.cols
    ensures s.Valid() && s.rows == m.rows && s.cols == hi - lo
    ensures lo * m.rows <= hi * m.rows <= |m.data| && s.data == m.data[lo * m.rows .. hi * m.rows]
  {
    MulMono(hi, m.cols, m.rows);
    MulMono(lo, hi, m.rows);
    Distribute(lo, hi - lo, m.rows);
    Mat(m.rows, hi - lo, m.data[lo * m.rows .. hi * m.rows])
  }

  /** Entry (r, j) of the column range is entry (r, lo + j) of m. */
  lemma ColumnsGet(m: Mat, lo: nat, hi: nat)
    requires m.Valid() && lo <= hi <= m.cols
    ensures forall r: nat, j: nat :: r < m.rows && j < hi - lo ==> Columns(m, lo, hi).Get(r, j) == m.Get(r, lo + j)
  {
    var s := Columns(m, lo, hi);
    forall r: nat, j: nat | r < m.rows && j < hi - lo ensures s.Get(r, j) == m.Get(r, lo + j) {
      Distribute(lo, j, m.rows);
    }
  }

  /** The batches of at most k columns that start at column `start`, `start + k`, ... */
  ghost function BatchesFrom(m: Mat, k: nat, start: nat): seq<Mat>
    requires m.Valid() && k > 0 && start <= m.cols
    decreases m.cols - start
  {
    if start == m.cols then []
    else [Columns(m, start, Min(start + k, m.cols))] + BatchesFrom(m, k, Min(start + k, m.cols))
  }

  /** The batches of m: the column ranges [b * k, min((b + 1) * k, cols)). */
  ghost function Batches(m: Mat, k: nat): seq<Mat>
    requires m.Valid() && k > 0
  {
    BatchesFrom(m, k, 0)
  }

  /** A batch list that does not end here is the batch at `start` followed by those after it. */
  lemma BatchesFromStep(m: Mat, k: nat, start: nat)
    requires m.Valid() && k > 0 && start < m.cols
    ensures BatchesFrom(m, k, start) == [Columns(m, start, Min(start + k, m.cols))] + BatchesFrom(m, k, Min(start + k, m.cols))
  {
  }

  /** Batch b counted from `start` is batch b - 1 counted from the next batch's start. */
  lemma ShiftBatch(start: nat, k: nat, b: nat)
    requires b > 0
    ensures start + b * k == (start + k) + (b - 1) * k
  {
    Distribute(b - 1, 1, k);
  }

  lemma {:induction false} BatchesFromLength(m: Mat, k: nat, start: nat)
    requires m.Valid() && k > 0 && start <= m.cols
    decreases m.cols - start
    ensures |BatchesFrom(m, k, start)| == NumBatches(m.cols - start, k)
  {
    NumBatchesStep(m.cols - start, k);
    if start < m.cols {
      BatchesFromLength(m, k, Min(start + k, m.cols));
    }
  }

  lemma {:induction false} BatchesFromShape(m: Mat, k: nat, start: nat, b: nat)
    requires m.Valid() && k > 0 && start <= m.cols
    decreases m.cols - start
    ensures |BatchesFrom(m, k, start)| == NumBatches(m.cols - start, k)
    ensures b < |BatchesFrom(m, k, start)| ==>
              start + b * k < m.cols &&
              BatchesFrom(m, k, start)[b] == Columns(m, start + b * k, Min(start + b * k + k, m.cols))
  {
    BatchesFromLength(m, k, start);
    if start < m.cols && b > 0 {
      var next := Min(start + k, m.cols);
      var rest := BatchesFrom(m, k, next);
      assert BatchesFrom(m, k, start) == [Columns(m, start, next)] + rest;
      if b - 1 < |rest| {
        BatchesFromShape(m, k, next, b - 1);
        ShiftBatch(start, k, b);
        assert next == start + k;
      }
    }
  }

  /** Batch b holds the columns starting at b * k: at most k of them, all that remain when fewer. */
  lemma BatchShape(m: Mat, k: nat, b: nat)
    requires m.Valid() && k > 0
    ensures |Batches(m, k)| == NumBatches(m.cols, k)
    ensures b < |Batches(m, k)| ==> b * k < m.cols && Batches(m, k)[b].Valid() && Batches(m, k)[b].rows == m.rows
    ensures b < |Batches(m, k)| ==> Batches(m, k)[b].cols == Min(k, m.cols - b * k)
    ensures b < |Batches(m, k)| ==> forall r: nat, j: nat :: r < m.rows && j < Batches(m, k)[b].cols ==>
              Batches(m, k)[b].Get(r, j) == m.Get(r, b * k + j)
  {
    BatchesFromShape(m, k, 0, b);
    if b < |Batches(m, k)| {
      var lo := b * k;
      var hi := Min(lo + k, m.cols);
      assert Batches(m, k)[b] == Columns(m, lo, hi);
      ColumnsGet(m, lo, hi);
    }
  }

  /** Every batch but the last has exactly k columns. */
  lemma BatchFull(m: Mat, k: nat, b: nat)
    requires m.Valid() && k > 0
    ensures b + 1 < |Batches(m, k)| ==> Batches(m, k)[b].cols == k
  {
    if b + 1 < |Batches(m, k)| {
      BatchesFromShape(m, k, 0, b);
      BatchesFromShape(m, k, 0, b + 1);
      Distribute(b, 1, k);
    }
  }

  /** Side-by-side concatenation of matrices with `rows` rows, left to right. */
  function ConcatCols(rows: nat, ms: seq<Mat>): Mat
  {
    if ms == [] then Mat(rows, 0, [])
    else
      var rest := ConcatCols(rows, ms[1..]);
      Mat(rows, ms[0].cols + rest.cols, ms[0].data + rest.data)
  }

  lemma {:induction false} ConcatBatchesFrom(m: Mat, k: nat, start: nat)
    requires m.Valid() && k > 0 && start <= m.cols
    decreases m.cols - start
    ensures ConcatCols(m.rows, BatchesFrom(m, k, start)) == Columns(m, start, m.cols)
  {
    if start < m.cols {
      var next := Min(start + k, m.cols);
      var bs := BatchesFrom(m, k, start);
      assert bs[1..] == BatchesFrom(m, k, next);
      ConcatBatchesFrom(m, k, next);
      var lo, mid, hi := start * m.rows, next * m.rows, m.cols * m.rows;
      assert Columns(m, start, next).data == m.data[lo .. mid];
      assert Columns(m, next, m.cols).data == m.data[mid .. hi];
      assert m.data[lo .. mid] + m.data[mid .. hi] == m.data[lo .. hi];
    } else {
      assert Columns(m, start, m.cols).data == [];
    }
  }

  /** Concatenating the batches side by side rebuilds the matrix. */
  lemma BatchesRebuild(m: Mat, k: nat)
    requires m.Valid() && k > 0
    ensures ConcatCols(m.rows, Batches(m, k)) == m
  {
    ConcatBatchesFrom(m, k, 0);
    assert Columns(m, 0, m.cols).data == m.data;
  }
}
