/** `DefaultMatrix`: the square table of attraction values between particle types. */
module Matrices {

  /** Row-major contents of an `n` by `n` matrix, as a value. */
  predicate IsSquare(rows: seq<seq<real>>, n: nat)
  {
    |rows| == n && forall i :: 0 <= i < n ==> |rows[i]| == n
  }

  class DefaultMatrix {
    const size: nat
    const values: array2<real>

    ghost predicate Valid()
      reads this
    {
      values.Length0 == size && values.Length1 == size
    }

    /** The entries as a sequence of rows, the value this object stands for. */
    function Rows(): (r: seq<seq<real>>)
      requires Valid()
      reads this, values
      ensures IsSquare(r, size)
      ensures forall i, j :: 0 <= i < size && 0 <= j < size ==> r[i][j] == values[i, j]
    {
      seq(size, i requires 0 <= i < values.Length0 reads this, values =>
        seq(size, j requires 0 <= j < values.Length1 reads this, values => values[i, j]))
    }

    /** `new DefaultMatrix(n)`: an `n` by `n` matrix of zeros. */
    constructor (n: nat)
      ensures Valid() && size == n && fresh(values)
      ensures forall i, j :: 0 <= i < n && 0 <= j < n ==> values[i, j] == 0.0
    {
      size := n;
      values := new real[n, n];
      new;
      Zero();
    }

    /** `zero`: every entry set to 0. */
    method Zero()
      requires Valid()
      modifies values
      ensures forall i, j :: 0 <= i < size && 0 <= j < size ==> values[i, j] == 0.0
    {
      var i := 0;
      while i < size
        invariant 0 <= i <= size
        invariant forall a, b :: 0 <= a < i && 0 <= b < size ==> values[a, b] == 0.0
      {
        var j := 0;
        while j < size
          invariant 0 <= j <= size
          invariant forall a, b :: 0 <= a < i && 0 <= b < size ==> values[a, b] == 0.0
          invariant forall b :: 0 <= b < j ==> values[i, b] == 0.0
        {
          values[i, j] := 0.0;
          j := j + 1;
        }
        i := i + 1;
      }
    }

    /** `randomize`: every entry becomes some value of [-1, 1); the random source is not modelled. */
    method Randomize()
      requires Valid()
      modifies values
      ensures forall i, j :: 0 <= i < size && 0 <= j < size ==> -1.0 <= values[i, j] < 1.0
    {
      var i := 0;
      while i < size
        invariant 0 <= i <= size
        invariant forall a, b :: 0 <= a < i && 0 <= b < size ==> -1.0 <= values[a, b] < 1.0
      {
        var j := 0;
        while j < size
          invariant 0 <= j <= size
          invariant forall a, b :: 0 <= a < i && 0 <= b < size ==> -1.0 <= values[a, b] < 1.0
          invariant forall b :: 0 <= b < j ==> -1.0 <= values[i, b] < 1.0
        {
          var u: real :| 0.0 <= u < 1.0;
          values[i, j] := 2.0 * u - 1.0;
          j := j + 1;
        }
        i := i + 1;
      }
    }

    /** `get`. */
    function Get(i: int, j: int): real
      requires Valid() && 0 <= i < size && 0 <= j < size
      reads this, values
    {
      values[i, j]
    }

    /** `set`: entry (i, j) becomes `v` and no other entry changes. */
    method Set(i: int, j: int, v: real)
      requires Valid() && 0 <= i < size && 0 <= j < size
      modifies values
      ensures Rows() == old(Rows())[i := old(Rows())[i][j := v]]
      ensures forall a, b :: 0 <= a < size && 0 <= b < size ==>
        values[a, b] == if a == i && b == j then v else old(values[a, b])
    {
      ghost var before := Rows();
      values[i, j] := v;
      ghost var expected := before[i := before[i][j := v]];
      assert forall a :: 0 <= a < size ==> Rows()[a] == expected[a];
    }

    /** `deepCopy`: a matrix with the same entries and storage of its own. */
    method DeepCopy() returns (c: DefaultMatrix)
      requires Valid()
      ensures fresh(c) && fresh(c.values) && c.Valid()
      ensures c.size == size && c.Rows() == Rows()
    {
      c := new DefaultMatrix(size);
      var i := 0;
      while i < size
        invariant 0 <= i <= size
        invariant forall a, b :: 0 <= a < i && 0 <= b < size ==> c.values[a, b] == values[a, b]
      {
        var j := 0;
        while j < size
          invariant 0 <= j <= size
          invariant forall a, b :: 0 <= a < i && 0 <= b < size ==> c.values[a, b] == values[a, b]
          invariant forall b :: 0 <= b < j ==> c.values[i, b] == values[i, b]
        {
          c.values[i, j] := values[i, j];
          j := j + 1;
        }
        i := i + 1;
      }
      assert forall a :: 0 <= a < size ==> c.Rows()[a] == Rows()[a];
    }

    /**
     * `equals`: false for null (standing for an object that is not a
     * matrix), for a different size or for any differing entry; true otherwise.
     */
    method Equals(o: DefaultMatrix?) returns (b: bool)
      requires Valid() && (o != null ==> o.Valid())
      ensures b <==> o != null && o.size == size && o.Rows() == Rows()
    {
      if o == null || o.size != size {
        return false;
      }
      var i := 0;
      while i < size
        invariant 0 <= i <= size
        invariant forall a, c :: 0 <= a < i && 0 <= c < size ==> o.values[a, c] == values[a, c]
      {
        var j := 0;
        while j < size
          invariant 0 <= j <= size
          invariant forall a, c :: 0 <= a < i && 0 <= c < size ==> o.values[a, c] == values[a, c]
          invariant forall c :: 0 <= c < j ==> o.values[i, c] == values[i, c]
        {
          if o.Get(i, j) != Get(i, j) {
            assert o.Rows()[i][j] != Rows()[i][j];
            return false;
          }
          j := j + 1;
        }
        i := i + 1;
      }
      assert forall a :: 0 <= a < size ==> o.Rows()[a] == Rows()[a];
      return true;
    }
  }
}
