/** scratch/matriz.h: a two-dimensional view on one flat row-major vector. */
module Matriz {

  datatype Cell<T> = OutOfRange | Value(value: T)

  /** How many elements the first `rows` rows hold. */
  function Size(rows: nat, columns: nat): nat {
    if rows == 0 then 0 else Size(rows - 1, columns) + columns
  }

  lemma {:induction false} SizeIsProduct(rows: nat, columns: nat)
    ensures Size(rows, columns) == rows * columns
  {
    if rows > 0 { SizeIsProduct(rows - 1, columns); }
  }

  /** The place of row `i`, column `j`: offset plus index. */
  function Index(columns: nat, i: nat, j: nat): nat {
    Size(i, columns) + j
  }

  /** A later row starts after the end of an earlier one. */
  lemma {:induction false} RowsApart(columns: nat, i: nat, i': nat)
    requires i < i'
    ensures Size(i, columns) + columns <= Size(i', columns)
    decreases i'
  {
    if i + 1 < i' { RowsApart(columns, i, i' - 1); }
  }

  lemma IndexInRange(rows: nat, columns: nat, i: nat, j: nat)
    requires i < rows && j < columns
    ensures Index(columns, i, j) < Size(rows, columns)
  {
    RowsApart(columns, i, rows);
  }

  lemma IndexInjective(columns: nat, i: nat, j: nat, i': nat, j': nat)
    requires j < columns && j' < columns && Index(columns, i, j) == Index(columns, i', j')
    ensures i == i' && j == j'
  {
    if i < i' { RowsApart(columns, i, i'); }
    if i' < i { RowsApart(columns, i', i); }
  }

  /** The cell in row `i` and column `j` of flat storage. */
  function FlatAt<T>(elements: seq<T>, rows: nat, columns: nat, i: nat, j: nat): T
    requires |elements| == Size(rows, columns) && i < rows && j < columns
  {
    IndexInRange(rows, columns, i, j);
    elements[Index(columns, i, j)]
  }

  /** Row-major order, spelled out. */
  lemma FlatAtIsRowMajor<T>(elements: seq<T>, rows: nat, columns: nat, i: nat, j: nat)
    requires |elements| == Size(rows, columns) && i < rows && j < columns
    ensures i * columns + j < |elements| && FlatAt(elements, rows, columns, i, j) == elements[i * columns + j]
  {
    SizeIsProduct(i, columns);
    IndexInRange(rows, columns, i, j);
  }

  function FlatSet<T>(elements: seq<T>, rows: nat, columns: nat, i: nat, j: nat, x: T): (r: seq<T>)
    requires |elements| == Size(rows, columns) && i < rows && j < columns
    ensures |r| == |elements|
  {
    IndexInRange(rows, columns, i, j);
    elements[Index(columns, i, j) := x]
  }

  /** Writing one cell changes that cell and no other. */
  lemma FlatSetAt<T>(elements: seq<T>, rows: nat, columns: nat, i: nat, j: nat, x: T, i': nat, j': nat)
    requires |elements| == Size(rows, columns) && i < rows && j < columns && i' < rows && j' < columns
    ensures FlatAt(FlatSet(elements, rows, columns, i, j, x), rows, columns, i', j')
         == if i' == i && j' == j then x else FlatAt(elements, rows, columns, i', j')
  {
    IndexInRange(rows, columns, i, j);
    IndexInRange(rows, columns, i', j');
    if Index(columns, i, j) == Index(columns, i', j') { IndexInjective(columns, i, j, i', j'); }
  }

  /** `vector::resize`: the first elements stay, new ones take the default value. */
  function Resized<T>(s: seq<T>, n: nat, zero: T): seq<T> {
    if n <= |s| then s[..n] else s + seq(n - |s|, _ => zero)
  }

  class Matrix<T> {
    const zero: T
    var elements: seq<T>
    var rows: nat
    var columns: nat

    ghost predicate Valid()
      reads this
    {
      |elements| == Size(rows, columns)
    }

    ghost function At(i: nat, j: nat): T
      requires Valid() && i < rows && j < columns
      reads this
    {
      FlatAt(elements, rows, columns, i, j)
    }

    constructor (zero: T)
      ensures Valid() && rows == columns == 0 && this.zero == zero && elements == []
    {
      this.zero := zero;
      elements, rows, columns := [], 0, 0;
    }

    method SetDimensions(rows: nat, columns: nat)
      modifies this
      ensures Valid() && this.rows == rows && this.columns == columns
      ensures elements == Resized(old(elements), rows * columns, zero) && |elements| == rows * columns
      ensures forall k :: 0 <= k < |elements| ==> elements[k] == if k < |old(elements)| then old(elements)[k] else zero
    {
      SizeIsProduct(rows, columns);
      this.rows, this.columns := rows, columns;
      elements := Resized(elements, rows * columns, zero);
    }

    /** `m[i][j]` read: the row operator checks the row, the column operator the column. */
    method Get(i: nat, j: nat) returns (r: Cell<T>)
      requires Valid()
      ensures r.OutOfRange? <==> !(i < rows && j < columns)
      ensures r.Value? ==> r.value == At(i, j)
      ensures r.Value? ==> i * columns + j < |elements| && r.value == elements[i * columns + j]
    {
      if i >= rows || j >= columns { return OutOfRange; }
      FlatAtIsRowMajor(elements, rows, columns, i, j);
      r := Value(FlatAt(elements, rows, columns, i, j));
    }

    /** `m[i][j] = x`; by FlatSetAt exactly one cell of the matrix changes. */
    method Set(i: nat, j: nat, x: T) returns (ok: bool)
      requires Valid()
      modifies this`elements
      ensures Valid() && (ok <==> i < rows && j < columns)
      ensures !ok ==> elements == old(elements)
      ensures ok ==> elements == FlatSet(old(elements), rows, columns, i, j, x)
    {
      ok := i < rows && j < columns;
      if ok {
        elements := FlatSet(elements, rows, columns, i, j, x);
      }
    }
  }
}
