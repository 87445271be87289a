/** Index-loop implementations of the product and of crossing out: nested
    loops filling a fresh array, proved equal to the functional definitions.
 */
module MatrixLoops {
  import opened Grids

  /** Row i, column j of the product accumulated over k, one entry at a time. */
  method MultiplyLoop(a: Grid, b: Grid, p: nat) returns (c: Grid)
    requires Rectangular(a, |b|) && Rectangular(b, p)
    ensures |c| == |a| && Rectangular(c, p)
    ensures forall i, j :: 0 <= i < |a| && 0 <= j < p ==> c[i][j] == Inner(a[i], Column(b, j))
    ensures c == Product(a, b, p)
  {
    c := [];
    var i := 0;
    while i < |a|
      invariant 0 <= i <= |a|
      invariant |c| == i && Rectangular(c, p)
      invariant forall i', j :: 0 <= i' < i && 0 <= j < p ==> c[i'][j] == Inner(a[i'], Column(b, j))
    {
      var row: Row := [];
      var j := 0;
      while j < p
        invariant 0 <= j <= p
        invariant |row| == j
        invariant forall j' :: 0 <= j' < j ==> row[j'] == Inner(a[i], Column(b, j'))
      {
        var sum := 0.0;
        var k := 0;
        while k < |b|
          invariant 0 <= k <= |b|
          invariant sum == Inner(a[i][..k], Column(b, j)[..k])
        {
          assert a[i][..k + 1][..k] == a[i][..k];
          assert Column(b, j)[..k + 1][..k] == Column(b, j)[..k];
          sum := sum + a[i][k] * b[k][j];
          k := k + 1;
        }
        assert a[i][..|b|] == a[i];
        assert Column(b, j)[..|b|] == Column(b, j);
        row := row + [sum];
        j := j + 1;
      }
      c := c + [row];
      i := i + 1;
    }
    GridsEqual(c, Product(a, b, p), p);
  }

  /** Copies every row but `row`, and in each every entry but `column`,
      appending to the result, so that the result's own length is the next
      write position. */
  method CrossOutLoop(g: Grid, width: nat, row: nat, column: nat) returns (out: Grid)
    requires Rectangular(g, width) && row < |g| && column < width
    ensures |out| == |g| - 1 && Rectangular(out, width - 1)
    ensures forall i, j :: 0 <= i < |g| - 1 && 0 <= j < width - 1 ==>
              out[i][j] == g[if i < row then i else i + 1][if j < column then j else j + 1]
    ensures out == Minor(g, width, row, column)
  {
    out := [];
    var i := 0;
    while i < |g|
      invariant 0 <= i <= |g|
      invariant |out| == if i <= row then i else i - 1
      invariant Rectangular(out, width - 1)
      invariant forall r, j :: 0 <= r < |out| && 0 <= j < width - 1 ==> out[r][j] == g[Skip(r, row)][Skip(j, column)]
    {
      if i != row {
        var newRow: Row := [];
        var j := 0;
        while j < width
          invariant 0 <= j <= width
          invariant |newRow| == if j <= column then j else j - 1
          invariant forall c :: 0 <= c < |newRow| ==> newRow[c] == g[i][Skip(c, column)]
        {
          if j != column {
            newRow := newRow + [g[i][j]];
          }
          j := j + 1;
        }
        out := out + [newRow];
      }
      i := i + 1;
    }
    forall i, j | 0 <= i < |g| - 1 && 0 <= j < width - 1
      ensures out[i][j] == g[if i < row then i else i + 1][if j < column then j else j + 1]
    {
      assert Skip(i, row) == if i < row then i else i + 1;
      assert Skip(j, column) == if j < column then j else j + 1;
    }
    GridsEqual(out, Minor(g, width, row, column), width - 1);
  }
}
