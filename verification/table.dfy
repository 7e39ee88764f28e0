// The rectangular table under an ABCSV document (an `ABMatrix` in the
// source), as a sequence of rows, and the row and column operations the
// document forwards to it. Indices must be in range and new rows and columns
// must have the matching length.

module CsvTable {

  /** Every row has `w` entries. */
  predicate Rectangular<T>(m: seq<seq<T>>, w: nat)
  {
    forall i :: 0 <= i < |m| ==> |m[i]| == w
  }

  /** A `rows` x `columns` table holding `v` everywhere. */
  function Filled<T>(rows: nat, columns: nat, v: T): (m: seq<seq<T>>)
    ensures |m| == rows && Rectangular(m, columns)
    ensures forall i, j :: 0 <= i < rows && 0 <= j < columns ==> m[i][j] == v
  {
    seq(rows, _ => seq(columns, _ => v))
  }

  // ---------------------------------------------------------------------
  // Cells and columns

  function SetCell<T>(m: seq<seq<T>>, i: nat, j: nat, v: T): (r: seq<seq<T>>)
    requires i < |m| && j < |m[i]|
    ensures |r| == |m| && forall a :: 0 <= a < |m| ==> |r[a]| == |m[a]|
    ensures r[i][j] == v
    ensures forall a, b :: 0 <= a < |m| && 0 <= b < |m[a]| && (a != i || b != j) ==> r[a][b] == m[a][b]
  {
    m[i := m[i][j := v]]
  }

  /** Entry `j` of every row. */
  function Column<T>(m: seq<seq<T>>, j: nat): (c: seq<T>)
    requires forall i :: 0 <= i < |m| ==> j < |m[i]|
    ensures |c| == |m| && forall i :: 0 <= i < |m| ==> c[i] == m[i][j]
  {
    seq(|m|, i requires 0 <= i < |m| => m[i][j])
  }

  function SetColumn<T>(m: seq<seq<T>>, j: nat, col: seq<T>): (r: seq<seq<T>>)
    requires |col| == |m| && forall i :: 0 <= i < |m| ==> j < |m[i]|
    ensures |r| == |m| && forall a :: 0 <= a < |m| ==> |r[a]| == |m[a]|
    ensures Column(r, j) == col
    ensures forall a, b :: 0 <= a < |m| && 0 <= b < |m[a]| && b != j ==> r[a][b] == m[a][b]
  {
    seq(|m|, i requires 0 <= i < |m| => m[i][j := col[i]])
  }

  function InsertColumn<T>(m: seq<seq<T>>, j: nat, col: seq<T>): (r: seq<seq<T>>)
    requires |col| == |m| && forall i :: 0 <= i < |m| ==> j <= |m[i]|
    ensures |r| == |m| && forall a :: 0 <= a < |m| ==> |r[a]| == |m[a]| + 1
    ensures Column(r, j) == col
    ensures forall a, b :: 0 <= a < |m| && 0 <= b < j ==> r[a][b] == m[a][b]
    ensures forall a, b :: 0 <= a < |m| && j <= b < |m[a]| ==> r[a][b + 1] == m[a][b]
  {
    seq(|m|, i requires 0 <= i < |m| => m[i][..j] + [col[i]] + m[i][j..])
  }

  function RemoveColumn<T>(m: seq<seq<T>>, j: nat): (r: seq<seq<T>>)
    requires forall i :: 0 <= i < |m| ==> j < |m[i]|
    ensures |r| == |m| && forall a :: 0 <= a < |m| ==> |r[a]| == |m[a]| - 1
    ensures forall a, b :: 0 <= a < |m| && 0 <= b < j ==> r[a][b] == m[a][b]
    ensures forall a, b :: 0 <= a < |m| && j <= b < |m[a]| - 1 ==> r[a][b] == m[a][b + 1]
  {
    seq(|m|, i requires 0 <= i < |m| => m[i][..j] + m[i][j + 1..])
  }

  function AppendColumn<T>(m: seq<seq<T>>, col: seq<T>): (r: seq<seq<T>>)
    requires |col| == |m|
    ensures |r| == |m| && forall a :: 0 <= a < |m| ==> |r[a]| == |m[a]| + 1 && r[a][..|m[a]|] == m[a]
    ensures forall a :: 0 <= a < |m| ==> r[a][|m[a]|] == col[a]
  {
    seq(|m|, i requires 0 <= i < |m| => m[i] + [col[i]])
  }

  /** `swapColumns`: column `j` copied into `i`, then the saved column `i` into `j`. */
  function SwapColumns<T>(m: seq<seq<T>>, i: nat, j: nat): (r: seq<seq<T>>)
    requires forall a :: 0 <= a < |m| ==> i < |m[a]| && j < |m[a]|
    ensures |r| == |m| && forall a :: 0 <= a < |m| ==> |r[a]| == |m[a]|
    ensures forall a :: 0 <= a < |m| ==> r[a][i] == m[a][j] && r[a][j] == m[a][i]
    ensures forall a, b :: 0 <= a < |m| && 0 <= b < |m[a]| && b != i && b != j ==> r[a][b] == m[a][b]
  {
    var first := Column(m, i);
    var m' := SetColumn(m, i, Column(m, j));
    SetColumn(m', j, first)
  }

  // ---------------------------------------------------------------------
  // Rows

  function InsertRow<T>(m: seq<seq<T>>, i: nat, row: seq<T>): (r: seq<seq<T>>)
    requires i <= |m|
    ensures |r| == |m| + 1 && r[i] == row
    ensures forall a :: 0 <= a < i ==> r[a] == m[a]
    ensures forall a :: i <= a < |m| ==> r[a + 1] == m[a]
  {
    m[..i] + [row] + m[i..]
  }

  function RemoveRow<T>(m: seq<seq<T>>, i: nat): (r: seq<seq<T>>)
    requires i < |m|
    ensures |r| == |m| - 1
    ensures forall a :: 0 <= a < i ==> r[a] == m[a]
    ensures forall a :: i <= a < |m| - 1 ==> r[a] == m[a + 1]
  {
    m[..i] + m[i + 1..]
  }

  /** `swapRows`: row `j` copied into `i`, then the saved row `i` into `j`. */
  function SwapRows<T>(m: seq<seq<T>>, i: nat, j: nat): (r: seq<seq<T>>)
    requires i < |m| && j < |m|
    ensures |r| == |m| && r[i] == m[j] && r[j] == m[i]
    ensures forall a :: 0 <= a < |m| && a != i && a != j ==> r[a] == m[a]
  {
    var first := m[i];
    m[i := m[j]][j := first]
  }

  // ---------------------------------------------------------------------
  // Properties

  lemma SwapRowsPermutes<T>(m: seq<seq<T>>, i: nat, j: nat)
    requires i < |m| && j < |m|
    ensures multiset(SwapRows(m, i, j)) == multiset(m)
  {
    var m' := m[i := m[j]];
    assert multiset(m') == multiset(m) - multiset{m[i]} + multiset{m[j]};
    assert multiset(m'[j := m[i]]) == multiset(m') - multiset{m'[j]} + multiset{m[i]};
  }

  lemma SwapRowsTwice<T>(m: seq<seq<T>>, i: nat, j: nat)
    requires i < |m| && j < |m|
    ensures SwapRows(SwapRows(m, i, j), i, j) == m
  {
  }

  lemma SwapRowsSelf<T>(m: seq<seq<T>>, i: nat)
    requires i < |m|
    ensures SwapRows(m, i, i) == m
  {
  }

  lemma SwapRowsSymmetric<T>(m: seq<seq<T>>, i: nat, j: nat)
    requires i < |m| && j < |m|
    ensures SwapRows(m, i, j) == SwapRows(m, j, i)
  {
  }

  lemma SwapColumnsTwice<T>(m: seq<seq<T>>, i: nat, j: nat)
    requires forall a :: 0 <= a < |m| ==> i < |m[a]| && j < |m[a]|
    ensures SwapColumns(SwapColumns(m, i, j), i, j) == m
  {
    var r := SwapColumns(SwapColumns(m, i, j), i, j);
    forall a | 0 <= a < |m|
      ensures r[a] == m[a]
    {
      assert |r[a]| == |m[a]|;
    }
  }

  lemma SwapColumnsSelf<T>(m: seq<seq<T>>, i: nat)
    requires forall a :: 0 <= a < |m| ==> i < |m[a]|
    ensures SwapColumns(m, i, i) == m
  {
    var r := SwapColumns(m, i, i);
    forall a | 0 <= a < |m|
      ensures r[a] == m[a]
    {
      assert |r[a]| == |m[a]|;
    }
  }

  lemma RemoveInsertedRow<T>(m: seq<seq<T>>, i: nat, row: seq<T>)
    requires i <= |m|
    ensures RemoveRow(InsertRow(m, i, row), i) == m
  {
  }

  lemma InsertRemovedRow<T>(m: seq<seq<T>>, i: nat)
    requires i < |m|
    ensures InsertRow(RemoveRow(m, i), i, m[i]) == m
  {
  }

  lemma RemoveInsertedColumn<T>(m: seq<seq<T>>, j: nat, col: seq<T>)
    requires |col| == |m| && forall i :: 0 <= i < |m| ==> j <= |m[i]|
    ensures RemoveColumn(InsertColumn(m, j, col), j) == m
  {
    var r := RemoveColumn(InsertColumn(m, j, col), j);
    forall a | 0 <= a < |m|
      ensures r[a] == m[a]
    {
      assert |r[a]| == |m[a]|;
    }
  }

  lemma InsertRemovedColumn<T>(m: seq<seq<T>>, j: nat)
    requires forall i :: 0 <= i < |m| ==> j < |m[i]|
    ensures InsertColumn(RemoveColumn(m, j), j, Column(m, j)) == m
  {
    var r := InsertColumn(RemoveColumn(m, j), j, Column(m, j));
    forall a | 0 <= a < |m|
      ensures r[a] == m[a]
    {
      assert |r[a]| == |m[a]|;
      forall b | 0 <= b < |m[a]|
        ensures r[a][b] == m[a][b]
      {
        if b > j {
          assert r[a][b] == RemoveColumn(m, j)[a][b - 1];
        }
      }
    }
  }

  lemma AppendRowIsInsert<T>(m: seq<seq<T>>, row: seq<T>)
    ensures m + [row] == InsertRow(m, |m|, row)
  {
  }

  lemma AppendColumnIsInsert<T>(m: seq<seq<T>>, w: nat, col: seq<T>)
    requires Rectangular(m, w) && |col| == |m|
    ensures AppendColumn(m, col) == InsertColumn(m, w, col)
  {
    var r, r' := AppendColumn(m, col), InsertColumn(m, w, col);
    forall a | 0 <= a < |m|
      ensures r[a] == r'[a]
    {
      assert m[a][w..] == [];
    }
  }

}
