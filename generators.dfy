/**
 * The matrix generators offered to the user: fully random, symmetric random,
 * three banded "chains" patterns, "snakes" and all-zero.
 */
module Generators {
  import opened Matrices

  datatype Kind = FullyRandom | Symmetry | Chains | Chains2 | Chains3 | Snakes | Zero

  /** Types `i` and `j` are cyclic neighbours among `n` types. */
  predicate Adjacent(n: nat, i: int, j: int)
    requires n >= 1
  {
    j == (i + 1) % n || j == (i + n - 1) % n
  }

  /** Being cyclic neighbours is a symmetric relation. */
  lemma AdjacentSymmetric(n: nat, i: int, j: int)
    requires n >= 1 && 0 <= i < n && 0 <= j < n
    ensures Adjacent(n, i, j) <==> Adjacent(n, j, i)
  {
    NextModulo(n, i);
    NextModulo(n, j);
    PreviousModulo(n, i);
    PreviousModulo(n, j);
  }

  lemma NextModulo(n: nat, i: int)
    requires 0 <= i < n
    ensures (i + 1) % n == if i + 1 < n then i + 1 else 0
  {
  }

  lemma PreviousModulo(n: nat, i: int)
    requires 0 <= i < n
    ensures (i + n - 1) % n == if i >= 1 then i - 1 else n - 1
  {
  }

  /** The entry the deterministic generators put at (i, j). */
  function PatternEntry(kind: Kind, n: nat, i: int, j: int): real
    requires kind.Chains? || kind.Chains2? || kind.Chains3? || kind.Snakes? || kind.Zero?
    requires n >= 1
  {
    match kind
    case Chains => if j == i || Adjacent(n, i, j) then 1.0 else -1.0
    case Chains2 => if j == i then 1.0 else if Adjacent(n, i, j) then 0.2 else -1.0
    case Chains3 => if j == i then 1.0 else if Adjacent(n, i, j) then 0.2 else 0.0
    case Snakes => if j == (i + 1) % n then 0.2 else if j == i then 1.0 else 0.0
    case Zero => 0.0
  }

  /** The three chains patterns and the zero matrix are symmetric. */
  lemma ChainsSymmetric(kind: Kind, n: nat, i: int, j: int)
    requires kind.Chains? || kind.Chains2? || kind.Chains3? || kind.Zero?
    requires n >= 1 && 0 <= i < n && 0 <= j < n
    ensures PatternEntry(kind, n, i, j) == PatternEntry(kind, n, j, i)
  {
    AdjacentSymmetric(n, i, j);
  }

  /**
   * "snakes" has 1 on the diagonal and 0.2 just right of it (cyclically)
   * when there are at least two types; with one type the later write of
   * 0.2 lands on the diagonal.
   */
  lemma SnakesShape(n: nat, i: int)
    requires n >= 1 && 0 <= i < n
    ensures n >= 2 ==> PatternEntry(Snakes, n, i, i) == 1.0
    ensures PatternEntry(Snakes, n, i, (i + 1) % n) == 0.2
    ensures n == 1 ==> PatternEntry(Snakes, n, i, i) == 0.2
  {
    NextModulo(n, i);
  }

  /** The symmetrised entry: the lower triangle of `r` mirrored onto the upper one. */
  function Mirrored(r: seq<seq<real>>, n: nat, i: int, j: int): real
    requires IsSquare(r, n) && 0 <= i < n && 0 <= j < n
  {
    if j >= i then r[j][i] else r[i][j]
  }

  /** `DefaultMatrixGenerator` ("fully random"): a zero matrix of the size, then randomized. */
  method MakeFullyRandom(size: nat) returns (m: DefaultMatrix)
    ensures fresh(m) && fresh(m.values) && m.Valid() && m.size == size
    ensures forall i, j :: 0 <= i < size && 0 <= j < size ==> -1.0 <= m.Get(i, j) < 1.0
  {
    m := new DefaultMatrix(size);
    m.Randomize();
  }

  /** "symmetry": a random matrix whose upper triangle is then overwritten with the mirrored lower one. */
  method MakeSymmetric(size: nat) returns (m: DefaultMatrix)
    ensures fresh(m) && fresh(m.values) && m.Valid() && m.size == size
    ensures forall i, j :: 0 <= i < size && 0 <= j < size ==>
      m.Get(i, j) == m.Get(j, i) && -1.0 <= m.Get(i, j) < 1.0
  {
    m := new DefaultMatrix(size);
    m.Randomize();
    ghost var r := m.Rows();
    var i := 0;
    while i < size
      invariant 0 <= i <= size
      invariant m.Valid() && m.size == size
      invariant forall a, b :: 0 <= a < size && 0 <= b < size ==>
        m.values[a, b] == if a < i then Mirrored(r, size, a, b) else r[a][b]
    {
      var j := i;
      while j < size
        invariant i <= j <= size
        invariant forall a, b :: 0 <= a < size && 0 <= b < size ==>
          m.values[a, b] == if a < i || (a == i && i <= b < j) then Mirrored(r, size, a, b) else r[a][b]
      {
        m.Set(i, j, m.Get(j, i));
        j := j + 1;
      }
      i := i + 1;
    }
  }

  /** "chains", "chains 2", "chains 3": every entry written from the banded pattern. */
  method MakeChains(kind: Kind, size: nat) returns (m: DefaultMatrix)
    requires kind.Chains? || kind.Chains2? || kind.Chains3?
    ensures fresh(m) && fresh(m.values) && m.Valid() && m.size == size
    ensures forall i, j :: 0 <= i < size && 0 <= j < size ==> m.Get(i, j) == PatternEntry(kind, size, i, j)
  {
    m := new DefaultMatrix(size);
    var i := 0;
    while i < size
      invariant 0 <= i <= size
      invariant forall a, b :: 0 <= a < i && 0 <= b < size ==> m.values[a, b] == PatternEntry(kind, size, a, b)
    {
      var j := 0;
      while j < size
        invariant 0 <= j <= size
        invariant forall a, b :: 0 <= a < i && 0 <= b < size ==> m.values[a, b] == PatternEntry(kind, size, a, b)
        invariant forall b :: 0 <= b < j ==> m.values[i, b] == PatternEntry(kind, size, i, b)
      {
        var v: real;
        if kind.Chains? {
          v := if j == i || j == (i + 1) % size || j == (i + size - 1) % size then 1.0 else -1.0;
        } else if j == i {
          v := 1.0;
        } else if j == (i + 1) % size || j == (i + size - 1) % size {
          v := 0.2;
        } else {
          v := if kind.Chains2? then -1.0 else 0.0;
        }
        m.Set(i, j, v);
        j := j + 1;
      }
      i := i + 1;
    }
  }

  /** "snakes": on a zero matrix, row by row, the diagonal set to 1 and then the right neighbour to 0.2. */
  method MakeSnakes(size: nat) returns (m: DefaultMatrix)
    ensures fresh(m) && fresh(m.values) && m.Valid() && m.size == size
    ensures forall i, j :: 0 <= i < size && 0 <= j < size ==> m.Get(i, j) == PatternEntry(Snakes, size, i, j)
  {
    m := new DefaultMatrix(size);
    var i := 0;
    while i < size
      invariant 0 <= i <= size
      invariant forall a, b :: 0 <= a < size && 0 <= b < size ==>
        m.values[a, b] == if a < i then PatternEntry(Snakes, size, a, b) else 0.0
    {
      m.Set(i, i, 1.0);
      m.Set(i, (i + 1) % m.size, 0.2);
      i := i + 1;
    }
  }

  /** `v` is an entry the generator `kind` may put at (i, j) of an n by n matrix. */
  predicate Fits(kind: Kind, n: nat, i: int, j: int, v: real)
  {
    if kind.FullyRandom? || kind.Symmetry? then -1.0 <= v < 1.0
    else n >= 1 && v == PatternEntry(kind, n, i, j)
  }

  /**
   * `MatrixGenerator.makeMatrix` for each offered generator: a new matrix of
   * the requested size with that generator's structure.
   */
  method MakeMatrix(kind: Kind, size: nat) returns (m: DefaultMatrix)
    ensures fresh(m) && fresh(m.values) && m.Valid() && m.size == size
    ensures kind.FullyRandom? || kind.Symmetry? ==>
      forall i, j :: 0 <= i < size && 0 <= j < size ==> -1.0 <= m.Get(i, j) < 1.0
    ensures kind.Symmetry? ==> forall i, j :: 0 <= i < size && 0 <= j < size ==> m.Get(i, j) == m.Get(j, i)
    ensures !kind.FullyRandom? && !kind.Symmetry? ==>
      forall i, j :: 0 <= i < size && 0 <= j < size ==> m.Get(i, j) == PatternEntry(kind, size, i, j)
    ensures forall i, j :: 0 <= i < size && 0 <= j < size ==> Fits(kind, size, i, j, m.Get(i, j))
  {
    match kind
    case FullyRandom => m := MakeFullyRandom(size);
    case Symmetry => m := MakeSymmetric(size);
    case Chains => m := MakeChains(kind, size);
    case Chains2 => m := MakeChains(kind, size);
    case Chains3 => m := MakeChains(kind, size);
    case Snakes => m := MakeSnakes(size);
    case Zero => m := new DefaultMatrix(size);
  }
}
