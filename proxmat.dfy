/** The proximity matrix of a range of elements (algorithm/prox_mat.hpp). */
module ProxMat {

  /** A product of naturals with a positive factor is at least the other factor. */
  lemma MulAtLeast(a: nat, n: nat)
    requires a >= 1
    ensures a * n >= n
  {
    assert a * n == (a - 1) * n + n;
  }

  /** Division by n is unique: q·n + r with 0 <= r < n has quotient q and remainder r. */
  lemma DivModUnique(n: nat, q: nat, r: nat)
    requires r < n
    ensures (q * n + r) / n == q && (q * n + r) % n == r
  {
    var a := q * n + r;
    var q', r' := a / n, a % n;
    assert a == q' * n + r';
    if q' > q {
      MulAtLeast(q' - q, n);
    } else if q' < q {
      MulAtLeast(q - q', n);
    }
  }

  /** Flat index y·n + x of a cell of an n × n matrix, and back. */
  lemma CellIndex(n: nat, x: nat, y: nat)
    requires x < n && y < n
    ensures 0 <= y * n + x < n * n
    ensures (y * n + x) / n == y && (y * n + x) % n == x
  {
    MulAtLeast(n - y, n);
    assert n * n == y * n + (n - y) * n;
    DivModUnique(n, y, x);
  }

  /** The first `upto` cells of an n × n buffer, n = |elements|, are written. */
  predicate Filled<T>(cells: seq<real>, elements: seq<T>, metric: (T, T) -> real, upto: nat)
  {
    |elements| > 0 && upto <= |cells|
    && forall k :: 0 <= k < upto ==>
         k / |elements| < |elements| && cells[k] == metric(elements[k % |elements|], elements[k / |elements|])
  }

  /** `proximity_matrix`: `rows` = `cols` = the number of elements, and `mat` the n² cells. */
  class ProximityMatrix<T> {
    const elements: seq<T>
    const metric: (T, T) -> real
    var rows: nat
    var cols: nat
    var mat: array<real>

    /** The cell at flat index k = y·cols + x holds metric(element x, element y). */
    predicate Valid()
      reads this, mat
    {
      rows == cols == |elements| && mat.Length == rows * cols
      && (cols > 0 ==> Filled(mat[..], elements, metric, mat.Length))
    }

    /** The constructor over the range `elements`: the two nested loops write every cell
        once, in row-major order, the diagonal included. The buffer holds n² cells (the
        source only reserves that many). */
    constructor (elements: seq<T>, metric: (T, T) -> real)
      ensures this.elements == elements && this.metric == metric
      ensures Valid() && fresh(mat)
    {
      var n := |elements|;
      this.elements := elements;
      this.metric := metric;
      rows, cols := n, n;
      mat := new real[n * n];
      new;
      var y, i := 0, 0;
      while y < n
        invariant 0 <= y <= n && i == y * n && rows == n && cols == n && mat.Length == n * n
        invariant n > 0 ==> Filled(mat[..], elements, metric, i)
        modifies mat
      {
        var x := 0;
        while x < n
          invariant 0 <= x <= n && i == y * n + x
          invariant n > 0 ==> Filled(mat[..], elements, metric, i)
          modifies mat
        {
          CellIndex(n, x, y);
          mat[i] := metric(elements[x], elements[y]);
          i, x := i + 1, x + 1;
        }
        assert y * n + n == (y + 1) * n;
        y := y + 1;
      }
    }

    /** `operator()(x, y)`: the cell at y·cols + x. */
    function Get(x: nat, y: nat): (r: real)
      reads this, mat
      requires Valid() && x < cols && y < rows
      ensures r == metric(elements[x], elements[y])
    {
      CellIndex(cols, x, y);
      mat[y * cols + x]
    }

    /** With a symmetric metric the matrix is symmetric. */
    lemma GetSymmetric(x: nat, y: nat)
      requires Valid() && x < cols && y < rows
      requires metric(elements[x], elements[y]) == metric(elements[y], elements[x])
      ensures Get(x, y) == Get(y, x)
    {
    }

    /** `merge(x, y)`: a no-op. */
    method Merge(x: nat, y: nat)
      ensures unchanged(this) && unchanged(mat)
    {
    }
  }
}
