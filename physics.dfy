/**
 * `Physics`: the particle array, the interaction settings and the spatial
 * grid ("containers") that lets each particle look only at nearby particles.
 * The force law and the multi-threaded update loop are not part of this
 * model; what is modelled is the bookkeeping around them: sorting particles
 * into grid cells, resizing the particle array and the matrix, keeping types
 * and positions in range, and the periodic connection between two points.
 */
module PhysicsEngine {
  import opened Vectors
  import opened Range
  import opened Matrices
  import opened Settings
  import opened Particles
  import opened Generators
  import opened Buckets
  import opened ArrayUtils
  import opened MathUtils
  import opened TypeSetters
  import opened Wrappers

  /** Java's `(int)` cast of a double: truncation toward zero (saturation at the int bounds is not modelled). */
  function Truncate(v: real): (r: int)
    ensures v >= 0.0 ==> r as real <= v < r as real + 1.0
    ensures v < 0.0 ==> r as real - 1.0 < v <= r as real
  {
    if v >= 0.0 then v.Floor else -((-v).Floor)
  }

  /** `calcNxNy` as written: the number of whole cells of side `cs` across the unit interval. */
  function CellsPerSideAsWritten(cs: real): int
    requires cs > 0.0
  {
    (1.0 / cs).Floor
  }

  /**
   * The grid width with at least one cell per side. For cells no wider than
   * the world it is the written formula; a wider cell gives one cell.
   */
  function CellsPerSide(cs: real): (r: int)
    requires cs > 0.0
    ensures r >= 1
    ensures cs <= 1.0 ==> r == CellsPerSideAsWritten(cs)
    ensures cs > 1.0 ==> r == 1
  {
    var n := (1.0 / cs).Floor;
    if n < 1 then 1 else n
  }

  /**
   * `getContainerIndex`: column and row of `pos` in a grid of cells of side
   * `cs`, a column or row equal to the grid width folded onto the last one,
   * numbered row by row.
   */
  function ContainerIndexOf(pos: Vec3, cs: real, nx: int, ny: int): int
    requires cs > 0.0
  {
    var cx := Truncate(pos.x / cs);
    var cy := Truncate(pos.y / cs);
    var fx := if cx == nx then nx - 1 else cx;
    var fy := if cy == ny then ny - 1 else cy;
    fx + fy * nx
  }

  /** Both coordinates in [0, 1]: where clamped and wrapped positions live. */
  predicate InWorld(pos: Vec3)
  {
    0.0 <= pos.x <= 1.0 && 0.0 <= pos.y <= 1.0
  }

  /** A coordinate of [0, 1] falls in a column of [0, n) of a grid of n = CellsPerSide(cs) columns. */
  lemma CellInRange(v: real, cs: real)
    requires cs > 0.0 && 0.0 <= v <= 1.0
    ensures var c, n := Truncate(v / cs), CellsPerSide(cs);
      0 <= (if c == n then n - 1 else c) < n
  {
    var c, n := Truncate(v / cs), CellsPerSide(cs);
    assert v / cs <= 1.0 / cs by {
      assert v * (1.0 / cs) <= 1.0 * (1.0 / cs);
    }
    assert c <= (1.0 / cs).Floor;
    if cs > 1.0 {
      assert 1.0 / cs < 1.0;
    }
  }

  /**
   * With cells of any positive size, a position in the world lies in one of
   * the nx * ny containers when the grid has CellsPerSide(cs) cells per side.
   */
  lemma ContainerIndexInRange(pos: Vec3, cs: real)
    requires cs > 0.0 && InWorld(pos)
    ensures var n := CellsPerSide(cs);
      0 <= ContainerIndexOf(pos, cs, n, n) < n * n
  {
    var n := CellsPerSide(cs);
    CellInRange(pos.x, cs);
    CellInRange(pos.y, cs);
    var cx, cy := Truncate(pos.x / cs), Truncate(pos.y / cs);
    RowMajorInRange(if cx == n then n - 1 else cx, if cy == n then n - 1 else cy, n);
  }

  /** Column x and row y of an n by n grid, numbered row by row, give a number of [0, n * n). */
  lemma RowMajorInRange(x: int, y: int, n: int)
    requires 0 <= x < n && 0 <= y < n
    ensures 0 <= x + y * n < n * n
  {
    MulNonnegative(y, n);
    MulMonotone(y, n - 1, n);
    LastRowStart(n);
  }

  lemma MulNonnegative(a: int, b: int)
    requires a >= 0 && b >= 0
    ensures a * b >= 0
  {
  }

  lemma MulMonotone(a: int, b: int, c: int)
    requires a <= b && c >= 0
    ensures a * c <= b * c
  {
    MulNonnegative(b - a, c);
  }

  lemma LastRowStart(n: int)
    ensures (n - 1) * n == n * n - n
  {
  }

  /**
   * With the written grid width, a search radius above 1 gives a grid of
   * width 0, and the container index of the centre of the world is -1.
   */
  lemma ContainerIndexNegative()
    ensures CellsPerSideAsWritten(2.0) == 0
    ensures ContainerIndexOf(Vec3(0.5, 0.5, 0.0), 2.0, CellsPerSideAsWritten(2.0), CellsPerSideAsWritten(2.0)) == -1
  {
    assert (1.0 / 2.0).Floor == 0;
    assert Truncate(0.5 / 2.0) == 0;
  }

  /** `wrapContainerX` / `wrapContainerY`: a cell coordinate one grid width out of range brought back by one width. */
  function WrapContainer(c: int, n: int): (r: int)
    ensures -n <= c < 2 * n ==> 0 <= r < n
    ensures 0 <= c < n ==> r == c
    ensures r == c || r == c + n || r == c - n
  {
    if c < 0 then c + n
    else if c >= n then c - n
    else c
  }

  /** On [-n, 2n) wrapping a cell coordinate is its Euclidean remainder, so wrapping twice wraps once. */
  lemma WrapContainerRemainder(c: int, n: int)
    requires n > 0 && -n <= c < 2 * n
    ensures WrapContainer(c, n) == c % n
    ensures WrapContainer(WrapContainer(c, n), n) == WrapContainer(c, n)
  {
    var r := WrapContainer(c, n);
    EuclideanRemainderUnique(c, n, r, if c < 0 then -1 else if c >= n then 1 else 0);
  }

  /** The position `ensurePosition` makes of `pos`: wrapped into [0, 1) or clamped into [0, 1]. */
  function Ensured(wrap: bool, pos: Vec3): Vec3
  {
    if wrap then WrappedVector(pos) else Clamped(pos)
  }

  /** Where `ensurePosition` keeps positions: [0, 1) when wrapping, [0, 1] when clamping, z = 0. */
  predicate InBounds(wrap: bool, pos: Vec3)
  {
    if wrap then InUnitSquare(pos)
    else 0.0 <= pos.x <= 1.0 && 0.0 <= pos.y <= 1.0 && pos.z == 0.0
  }

  /**
   * `ensurePosition` always lands in bounds, leaves exactly the positions
   * already in bounds unchanged, and so is idempotent.
   */
  lemma EnsuredFixedPoints(wrap: bool, pos: Vec3)
    ensures InBounds(wrap, Ensured(wrap, pos))
    ensures Ensured(wrap, pos) == pos <==> InBounds(wrap, pos)
    ensures Ensured(wrap, Ensured(wrap, pos)) == Ensured(wrap, pos)
    ensures InWorld(Ensured(wrap, pos))
  {
    WrappedFixesUnitInterval(pos.x);
    WrappedFixesUnitInterval(pos.y);
    ClampIdempotent(pos);
  }

  /**
   * The new matrix of `setMatrixSize`: drawn from the generator at the new
   * size, then overwritten with `prev` on the block the two sizes share.
   */
  method ResizedMatrix(kind: Kind, prev: DefaultMatrix, newSize: nat) returns (m: DefaultMatrix)
    requires prev.Valid()
    ensures fresh(m) && fresh(m.values) && m.Valid() && m.size == newSize
    ensures forall i, j :: 0 <= i < newSize && 0 <= j < newSize ==>
      if i < prev.size && j < prev.size then m.Get(i, j) == prev.Rows()[i][j]
      else Fits(kind, newSize, i, j, m.Get(i, j))
  {
    m := MakeMatrix(kind, newSize);
    forall i, j | 0 <= i < newSize && 0 <= j < newSize
      ensures Fits(kind, newSize, i, j, m.values[i, j])
    {
      assert m.Get(i, j) == m.values[i, j];
    }
    var commonSize := if prev.size < newSize then prev.size else newSize;
    CopyBlock(m, prev, commonSize);
  }

  /** Copies the top-left k-by-k block of `prev` into `m`; the other entries of `m` stay. */
  method CopyBlock(m: DefaultMatrix, prev: DefaultMatrix, k: nat)
    requires m.Valid() && prev.Valid() && k <= m.size && k <= prev.size && m.values != prev.values
    modifies m.values
    ensures forall a, b :: 0 <= a < m.size && 0 <= b < m.size ==>
      m.values[a, b] == if a < k && b < k then prev.values[a, b] else old(m.values[a, b])
  {
    for i := 0 to k
      invariant forall a, b :: 0 <= a < m.size && 0 <= b < m.size ==>
        m.values[a, b] == if a < i && b < k then prev.values[a, b] else old(m.values[a, b])
    {
      CopyRow(m, prev, i, k);
    }
  }

  /** Copies the first k entries of row i of `prev` into `m`; the other entries of `m` stay. */
  method CopyRow(m: DefaultMatrix, prev: DefaultMatrix, i: nat, k: nat)
    requires m.Valid() && prev.Valid() && i < k <= m.size && k <= prev.size && m.values != prev.values
    modifies m.values
    ensures forall a, b :: 0 <= a < m.size && 0 <= b < m.size ==>
      m.values[a, b] == if a == i && b < k then prev.values[a, b] else old(m.values[a, b])
  {
    for j := 0 to k
      invariant forall a, b :: 0 <= a < m.size && 0 <= b < m.size ==>
        m.values[a, b] == if a == i && b < j then prev.values[a, b] else old(m.values[a, b])
    {
      m.Set(i, j, prev.Get(i, j));
    }
  }

  /** Copies `a` into the front of `b`; the rest of `b` is unchanged. */
  method CopyInto<T>(a: array<T>, b: array<T>)
    requires a.Length <= b.Length && a != b
    modifies b
    ensures b[..a.Length] == a[..] && b[a.Length..] == old(b[a.Length..])
  {
    for i := 0 to a.Length
      invariant b[..i] == a[..i] && b[a.Length..] == old(b[a.Length..])
    {
      b[i] := a[i];
    }
  }

  /**
   * `Collections.shuffle` on the particle array: for i from the last index
   * down to 1, swap entry i with an arbitrary entry of [0, i].
   */
  method Shuffle(a: array<Particle>)
    modifies a
    ensures multiset(a[..]) == multiset(old(a[..]))
  {
    var i := a.Length;
    while i > 1
      invariant 0 <= i <= a.Length
      invariant multiset(a[..]) == multiset(old(a[..]))
    {
      var j :| 0 <= j < i;
      Swap(a, i - 1, j);
      i := i - 1;
    }
  }

  /** The cell keys of the particles of `ps`, as a total function on particles (other particles get -1). */
  ghost function CellKeys(ps: seq<Particle>, cs: real, nx: int, ny: int): Particle -> int
    requires cs > 0.0
    reads set p | p in ps
  {
    var km := map p | p in ps :: ContainerIndexOf(p.position, cs, nx, ny);
    (p: Particle) => if p in km then km[p] else -1
  }

  /** Where cell c starts when entry d of `ends` is the end of cell d: 0 for the first cell, the end of the previous cell otherwise. */
  function StartOf(ends: seq<int>, c: int): int
    requires 0 <= c < |ends|
  {
    if c == 0 then 0 else ends[c - 1]
  }

  /** Every particle's key is its cell index under the grid, and lies in [0, cells). */
  ghost predicate CellKeyed(s: seq<Particle>, key: Particle -> int, cs: real, nx: int, ny: int, cells: int)
    requires cs > 0.0
    reads set p | p in s
  {
    forall i :: 0 <= i < |s| ==> 0 <= key(s[i]) == ContainerIndexOf(s[i].position, cs, nx, ny) < cells
  }

  /** For particles inside the world there is a key giving each its cell index, which lies in [0, n * n). */
  lemma {:induction false} CellKeysExist(s: seq<Particle>, cs: real, nx: int, ny: int, cells: int)
    requires cs > 0.0 && nx == ny == CellsPerSide(cs) && cells == nx * ny
    requires forall i :: 0 <= i < |s| ==> InWorld(s[i].position)
    ensures exists key: Particle -> int :: CellKeyed(s, key, cs, nx, ny, cells)
  {
    var key := CellKeys(s, cs, nx, ny);
    forall i | 0 <= i < |s| ensures 0 <= key(s[i]) == ContainerIndexOf(s[i].position, cs, nx, ny) < cells {
      ContainerIndexInRange(s[i].position, cs);
    }
    assert CellKeyed(s, key, cs, nx, ny, cells);
  }

  /** The key of any particle of `s` is its cell index. */
  lemma {:induction false} KeyOfMember(s: seq<Particle>, key: Particle -> int, cs: real, nx: int, ny: int, cells: int, p: Particle)
    requires cs > 0.0 && CellKeyed(s, key, cs, nx, ny, cells) && p in s
    ensures key(p) == ContainerIndexOf(p.position, cs, nx, ny)
  {
    var j :| 0 <= j < |s| && s[j] == p;
  }

  /** The first pass of `makeContainers`: after clearing, entry c of `cont` counts the particles in cell c. */
  method CountPerCell(ps: array<Particle>, cont: array<int>, cs: real, nx: int, ny: int, ghost s: seq<Particle>, ghost key: Particle -> int)
    requires ps[..] == s && cs > 0.0 && CellKeyed(s, key, cs, nx, ny, cont.Length)
    modifies cont
    ensures forall d {:trigger cont[d]} :: 0 <= d < cont.Length ==> cont[d] == |Bucket(s, key, d)|
  {
    for i := 0 to cont.Length
      invariant forall d :: 0 <= d < i ==> cont[d] == 0
    {
      cont[i] := 0;
    }
    for k := 0 to ps.Length
      invariant forall d :: 0 <= d < cont.Length ==> cont[d] == |Bucket(s[..k], key, d)|
    {
      var ci := ContainerIndexOf(ps[k].position, cs, nx, ny);
      BucketGrowsAll(s, key, k);
      cont[ci] := cont[ci] + 1;
    }
    assert s[..ps.Length] == s;
  }

  /** The second pass, capacity to index: each count becomes the sum of the counts before it. */
  method CountsToOffsets(cont: array<int>)
    modifies cont
    ensures forall d {:trigger cont[d]} :: 0 <= d < cont.Length ==> cont[d] == Sum(old(cont[..])[..d])
  {
    ghost var counts := cont[..];
    var offset := 0;
    for i := 0 to cont.Length
      invariant offset == Sum(counts[..i])
      invariant forall d {:trigger cont[d]} :: 0 <= d < i ==> cont[d] == Sum(counts[..d])
      invariant forall d :: i <= d < cont.Length ==> cont[d] == counts[d]
    {
      var cap := cont[i];
      SumPrefixStep(counts, i);
      cont[i] := offset;
      offset := offset + cap;
    }
  }

  /**
   * The third pass: every particle goes to the next free slot of its cell,
   * which lays the cells out end to end in `buf`; entry c of `cont` ends at
   * the end of cell c.
   */
  method ScatterIntoCells(ps: array<Particle>, buf: array<Particle>, cont: array<int>, cs: real, nx: int, ny: int, ghost s: seq<Particle>, ghost key: Particle -> int)
    requires ps != buf && buf.Length == ps.Length
    requires ps[..] == s && cs > 0.0 && CellKeyed(s, key, cs, nx, ny, cont.Length)
    requires forall d {:trigger cont[d]} :: 0 <= d < cont.Length ==> cont[d] == |Laid(s, key, d)|
    modifies cont, buf
    ensures buf[..] == Laid(s, key, cont.Length)
    ensures forall d {:trigger cont[d]} :: 0 <= d < cont.Length ==> cont[d] == |Laid(s, key, d)| + |Bucket(s, key, d)|
  {
    ghost var cells := cont.Length;
    assert KeysBelow(s, key, cells);
    ScatterStart(buf[..], s, key, cells);
    for k := 0 to ps.Length
      invariant forall d :: 0 <= d < cells ==> cont[d] == |Laid(s, key, d)| + |Bucket(s[..k], key, d)|
      invariant Scattered(buf[..], s, key, cells, k)
    {
      var p := ps[k];
      var ci := ContainerIndexOf(p.position, cs, nx, ny);
      var i := cont[ci];
      ghost var before := buf[..];
      ghost var slot := Slot(s, key, k);
      assert key(s[k]) == ci && i == slot;
      ScatterStep(before, s, key, cells, k);
      BucketGrowsAll(s, key, k);
      buf[i] := p;
      cont[ci] := cont[ci] + 1;
      assert buf[..] == before[slot := s[k]];
      assert Scattered(buf[..], s, key, cells, k + 1);
    }
    assert s[..ps.Length] == s;
    ScatterDone(buf[..], s, key, cells);
  }

  /** `buf` is ordered by key and the entries with key c are exactly those at [start of c, ends[c]). */
  ghost predicate KeyLayout(buf: seq<Particle>, key: Particle -> int, ends: seq<int>)
  {
    (forall i, j :: 0 <= i <= j < |buf| ==> key(buf[i]) <= key(buf[j]))
    && (forall i, c :: 0 <= i < |buf| && 0 <= c < |ends| ==>
          (key(buf[i]) == c <==> StartOf(ends, c) <= i < ends[c]))
  }

  /** The same layout with the cell index of each particle's position as its key. */
  ghost predicate CellLayout(buf: seq<Particle>, ends: seq<int>, cs: real, nx: int, ny: int)
    requires cs > 0.0
    reads set p | p in buf
  {
    (forall i, j :: 0 <= i <= j < |buf| ==>
      ContainerIndexOf(buf[i].position, cs, nx, ny) <= ContainerIndexOf(buf[j].position, cs, nx, ny))
    && (forall i, c :: 0 <= i < |buf| && 0 <= c < |ends| ==>
          (ContainerIndexOf(buf[i].position, cs, nx, ny) == c <==> StartOf(ends, c) <= i < ends[c]))
  }

  /**
   * The layout facts of the three passes together: the buffer is a
   * permutation of the particles, ordered by key, and cell c occupies
   * [start of c, ends[c]).
   */
  lemma {:induction false} SortedByCell(s: seq<Particle>, buf: seq<Particle>, key: Particle -> int, ends: seq<int>)
    requires KeysBelow(s, key, |ends|) && buf == Laid(s, key, |ends|)
    requires forall d {:trigger ends[d]} :: 0 <= d < |ends| ==> ends[d] == |Laid(s, key, d)| + |Bucket(s, key, d)|
    ensures multiset(buf) == multiset(s)
    ensures KeyLayout(buf, key, ends)
  {
    var n := |ends|;
    LaidIsPermutation(s, key, n);
    forall i, j | 0 <= i <= j < |buf| ensures key(buf[i]) <= key(buf[j]) {
      LaidSorted(s, key, n, i, j);
    }
    forall i, c | 0 <= i < |buf| && 0 <= c < n
      ensures key(buf[i]) == c <==> StartOf(ends, c) <= i < ends[c]
    {
      BucketRange(s, key, n, c, i);
      LaidLength(s, key, c);
      if c > 0 {
        var b := c - 1;
        LaidLength(s, key, b);
      }
    }
  }

  /**
   * The three passes of `makeContainers` on `ps`: afterwards `buf` holds the
   * particles of `ps` ordered by cell index, and cell c occupies
   * [start of c, cont[c]), where the start of cell 0 is 0 and that of cell c
   * is cont[c - 1].
   */
  method SortIntoCells(ps: array<Particle>, buf: array<Particle>, cont: array<int>, cs: real, nx: int, ny: int)
    requires ps != buf && buf.Length == ps.Length
    requires cs > 0.0 && nx == ny == CellsPerSide(cs) && cont.Length == nx * ny
    requires forall i :: 0 <= i < ps.Length ==> InWorld(ps[i].position)
    modifies cont, buf
    ensures multiset(buf[..]) == multiset(ps[..])
    ensures CellLayout(buf[..], cont[..], cs, nx, ny)
  {
    ghost var s := ps[..];
    ghost var cells := cont.Length;
    CellKeysExist(s, cs, nx, ny, cells);
    ghost var key: Particle -> int :| CellKeyed(s, key, cs, nx, ny, cells);
    CountPerCell(ps, cont, cs, nx, ny, s, key);
    ghost var counts := cont[..];
    CountsToOffsets(cont);
    OffsetsAreStarts(s, key, counts, cont[..]);
    ScatterIntoCells(ps, buf, cont, cs, nx, ny, s, key);
    SortedByCell(s, buf[..], key, cont[..]);
    CellOrder(s, buf[..], key, cont[..], cs, nx, ny);
  }

  /** The prefix sums of the cell sizes are the starts of the cells in the layout. */
  lemma {:induction false} OffsetsAreStarts(s: seq<Particle>, key: Particle -> int, counts: seq<int>, offsets: seq<int>)
    requires |offsets| == |counts|
    requires forall d :: 0 <= d < |counts| ==> counts[d] == |Bucket(s, key, d)|
    requires forall d {:trigger offsets[d]} :: 0 <= d < |offsets| ==> offsets[d] == Sum(counts[..d])
    ensures forall d {:trigger offsets[d]} :: 0 <= d < |offsets| ==> offsets[d] == |Laid(s, key, d)|
  {
    forall d {:trigger offsets[d]} | 0 <= d < |offsets| ensures offsets[d] == |Laid(s, key, d)| {
      LaidSizes(s, key, counts, d);
    }
  }

  /** Each particle of a permutation of `s` has its key as cell index. */
  lemma {:induction false} KeysAreCells(s: seq<Particle>, buf: seq<Particle>, key: Particle -> int, cs: real, nx: int, ny: int, cells: int)
    requires cs > 0.0 && CellKeyed(s, key, cs, nx, ny, cells) && multiset(buf) == multiset(s)
    ensures forall i :: 0 <= i < |buf| ==> ContainerIndexOf(buf[i].position, cs, nx, ny) == key(buf[i])
  {
    forall i | 0 <= i < |buf| ensures ContainerIndexOf(buf[i].position, cs, nx, ny) == key(buf[i]) {
      assert buf[i] in multiset(buf);
      KeyOfMember(s, key, cs, nx, ny, cells, buf[i]);
    }
  }

  /**
   * The layout in terms of cell indices: a permutation of the particles laid
   * out by their keys is laid out by their cell indices.
   */
  lemma {:induction false} CellOrder(s: seq<Particle>, buf: seq<Particle>, key: Particle -> int, ends: seq<int>, cs: real, nx: int, ny: int)
    requires cs > 0.0 && CellKeyed(s, key, cs, nx, ny, |ends|) && multiset(buf) == multiset(s)
    requires KeyLayout(buf, key, ends)
    ensures CellLayout(buf, ends, cs, nx, ny)
  {
    KeysAreCells(s, buf, key, cs, nx, ny, |ends|);
  }

  class Physics {
    var settings: PhysicsSettings
    var particles: array<Particle>
    /** After `MakeContainers`, entry c is the end (exclusive) of cell c's range of `particles`. */
    var containers: array?<int>
    var particlesBuffer: array?<Particle>
    var nx: int
    var ny: int
    var containerSize: real
    /** The generator `generateMatrix` and `setMatrixSize` draw new matrices from. */
    var matrixGenerator: Kind
    /** The installed type setter, which gives every new or retyped particle its type. */
    var typeSetter: TypeRule

    ghost predicate Valid()
      reads this, settings, settings.matrix, particles
    {
      settings.Valid() && Distinct(particles[..]) && particlesBuffer != particles && containerSize > 0.0
    }

    /** The type setter throws: "rotate" takes a remainder by the matrix size, and the size is 0. */
    predicate SetterThrows()
      reads this, settings, settings.matrix
    {
      typeSetter == RotateRule && settings.matrix.size == 0
    }

    /**
     * A particle as `generateParticle` leaves it: in bounds, at rest, with a
     * type the type setter gives a new particle (at the origin, at rest, type 0).
     */
    ghost predicate Spawned(p: Particle)
      reads this, settings, settings.matrix, p
    {
      InBounds(settings.wrap, p.position) && p.velocity == Zero3
      && Gives(typeSetter, Zero3, Zero3, 0, settings.matrix.size, p.kind)
    }

    /** The grid, the buffers, the generator and the settings object are those of the old state. */
    twostate predicate LayoutKept()
      reads this
    {
      settings == old(settings) && containers == old(containers) && particlesBuffer == old(particlesBuffer)
      && nx == old(nx) && ny == old(ny) && containerSize == old(containerSize)
      && matrixGenerator == old(matrixGenerator) && typeSetter == old(typeSetter)
    }

    /** `particles = newParticles`: a new particle array in place of the old one, everything else kept. */
    method ReplaceParticles(b: array<Particle>)
      requires settings.Valid() && containerSize > 0.0 && b != particlesBuffer && Distinct(b[..])
      modifies this`particles
      ensures Valid() && LayoutKept() && particles == b
    {
      particles := b;
    }

    /** The scalar settings are those of the old state. */
    twostate predicate ScalarsKept()
      reads this, settings
    {
      settings.wrap == old(settings.wrap) && settings.rmax == old(settings.rmax)
      && settings.friction == old(settings.friction) && settings.force == old(settings.force)
      && settings.dt == old(settings.dt)
    }

    /**
     * The constructor: the given matrix generator and type setter (the
     * shorthand constructor passes the random one), default settings, a
     * 0.065-wide grid, a fresh matrix from the generator of the default size
     * 6, and 10000 new particles. The source creates the particle array from
     * null; starting from an empty array and growing it does the same.
     */
    constructor (generator: Kind, setter: TypeRule)
      ensures Valid() && fresh(settings)
      ensures matrixGenerator == generator && typeSetter == setter
      ensures containers == null && particlesBuffer == null
      ensures containerSize == 0.065 && nx == 15 && ny == 15
      ensures settings.wrap && settings.rmax == 0.02 && settings.friction == 0.85 && settings.force == 1.0
      ensures settings.matrix.size == 6
      ensures forall i, j :: 0 <= i < 6 && 0 <= j < 6 ==> Fits(generator, 6, i, j, settings.matrix.Get(i, j))
      ensures particles.Length == 10000
      ensures forall i :: 0 <= i < particles.Length ==> Spawned(particles[i])
    {
      settings := new PhysicsSettings();
      particles := new Particle[0];
      containers := null;
      particlesBuffer := null;
      containerSize := 0.065;
      matrixGenerator := generator;
      typeSetter := setter;
      assert 15.0 <= 1.0 / 0.065 < 16.0;
      nx := CellsPerSide(0.065);
      ny := CellsPerSide(0.065);
      new;
      GenerateMatrix();
      var r := SetParticleCount(10000);
    }

    /** `generateMatrix`: a new matrix of the current size from the generator; the scalar settings stay. */
    method GenerateMatrix()
      requires Valid()
      modifies settings
      ensures Valid() && ScalarsKept()
      ensures fresh(settings.matrix) && settings.matrix.size == old(settings.matrix.size)
      ensures forall i, j :: 0 <= i < settings.matrix.size && 0 <= j < settings.matrix.size ==>
        Fits(matrixGenerator, settings.matrix.size, i, j, settings.matrix.Get(i, j))
    {
      var prevSize := settings.matrix.size;
      settings.matrix := MakeMatrix(matrixGenerator, prevSize);
    }

    /**
     * `setParticleCount`: equal count, nothing changes; a larger count keeps
     * every particle at its index and appends new ones; a smaller count
     * shuffles the array and keeps its first n particles. Growing throws
     * when the type setter does, before the array is replaced.
     */
    method SetParticleCount(n: nat) returns (r: Outcome<string>)
      requires Valid()
      modifies this, particles
      ensures Valid() && LayoutKept()
      ensures r.Fail? <==> n > old(particles.Length) && SetterThrows()
      ensures r.Fail? ==> particles == old(particles) && particles[..] == old(particles[..])
      ensures r.Pass? ==> particles.Length == n
      ensures n == old(particles.Length) ==> particles == old(particles) && particles[..] == old(particles[..])
      ensures r.Pass? && n > old(particles.Length) ==> particles[..old(particles.Length)] == old(particles[..])
      ensures r.Pass? && n > old(particles.Length) ==>
        forall i :: old(particles.Length) <= i < n ==> fresh(particles[i]) && Spawned(particles[i])
      ensures n < old(particles.Length) ==> multiset(particles[..]) <= multiset(old(particles[..]))
    {
      r := Pass;
      var len := particles.Length;
      if n != len {
        var newParticles;
        if n < len {
          newParticles := ShuffledPrefix(particles, n);
        } else {
          newParticles, r := Extended(particles, n);
          if r.Fail? {
            return;
          }
        }
        particles := newParticles;
      }
    }

    /** The shrinking branch of `setParticleCount`: shuffle `a` in place and copy its first n particles. */
    method ShuffledPrefix(a: array<Particle>, n: nat) returns (b: array<Particle>)
      requires Distinct(a[..]) && n < a.Length
      modifies a
      ensures fresh(b) && b.Length == n && Distinct(b[..])
      ensures multiset(b[..]) <= multiset(old(a[..]))
    {
      var filler := new Particle();
      b := new Particle[n](_ => filler);
      Shuffle(a);
      ghost var shuffled := a[..];
      PermutationDistinct(old(a[..]), shuffled);
      for i := 0 to n
        modifies b
        invariant b[..i] == a[..i]
      {
        b[i] := a[i];
      }
      assert a[..] == shuffled && b[..] == shuffled[..n];
      PrefixSubMultiset(shuffled, n);
    }

    /** The growing branch of `setParticleCount`: copy `a` and append newly generated particles. */
    method Extended(a: array<Particle>, n: nat) returns (b: array<Particle>, r: Outcome<string>)
      requires Distinct(a[..]) && n > a.Length
      ensures fresh(b) && b.Length == n && Distinct(b[..a.Length])
      ensures r.Fail? <==> SetterThrows()
      ensures b[..a.Length] == a[..]
      ensures r.Pass? ==> Distinct(b[..]) && forall i :: a.Length <= i < n ==> fresh(b[i]) && Spawned(b[i])
    {
      var filler := new Particle();
      b := new Particle[n](_ => filler);
      CopyInto(a, b);
      r := AppendGenerated(b, a.Length);
    }

    /**
     * Fills b[from..] with newly generated particles, keeping b[..from]; the
     * particles stay pairwise distinct. A throwing type setter stops the
     * first generation, before anything is written.
     */
    method AppendGenerated(b: array<Particle>, from: nat) returns (r: Outcome<string>)
      requires from <= b.Length && Distinct(b[..from])
      modifies b
      ensures r.Fail? <==> SetterThrows() && from < b.Length
      ensures r.Fail? ==> b[..] == old(b[..])
      ensures b[..from] == old(b[..from])
      ensures r.Pass? ==> Distinct(b[..]) && forall k :: from <= k < b.Length ==> fresh(b[k]) && Spawned(b[k])
    {
      for i := from to b.Length
        invariant b[..from] == old(b[..from])
        invariant forall k :: from <= k < i ==> fresh(b[k]) && Spawned(b[k])
        invariant Distinct(b[..i])
        invariant SetterThrows() ==> i == from && b[..] == old(b[..])
      {
        var p, s := GenerateParticle();
        if s.Fail? {
          return s;
        }
        b[i] := p;
      }
      r := Pass;
    }

    /**
     * `ensureTypes`: exactly the particles whose type is not below the
     * matrix size get a new type from the installed type setter; nothing
     * else changes. The setter sees the particle's old type, so whether the
     * new type is in range depends on the rule (`RestoredInRange`,
     * `OutOfRangeSurvives`). A throwing setter throws at the first such
     * particle, before any type has changed.
     */
    method EnsureTypes() returns (r: Outcome<string>)
      requires Valid()
      modifies set p | p in particles[..]
      ensures Valid()
      ensures forall i :: 0 <= i < particles.Length ==>
        particles[i].position == old(particles[i].position) && particles[i].velocity == old(particles[i].velocity)
      ensures r.Fail? <==> SetterThrows() && exists i :: 0 <= i < particles.Length && old(particles[i].kind) >= settings.matrix.size
      ensures r.Fail? ==> forall i :: 0 <= i < particles.Length ==> particles[i].kind == old(particles[i].kind)
      ensures forall i :: 0 <= i < particles.Length && old(particles[i].kind) < settings.matrix.size ==>
        particles[i].kind == old(particles[i].kind)
      ensures r.Pass? ==> forall i :: 0 <= i < particles.Length && old(particles[i].kind) >= settings.matrix.size ==>
        Gives(typeSetter, old(particles[i].position), old(particles[i].velocity), old(particles[i].kind),
              settings.matrix.size, particles[i].kind)
      ensures r.Pass? && RestoresRange(typeSetter) && settings.matrix.size >= 1 ==>
        forall i :: 0 <= i < particles.Length && old(particles[i].kind) >= settings.matrix.size ==>
          0 <= particles[i].kind < settings.matrix.size
    {
      for i := 0 to particles.Length
        invariant forall k :: 0 <= k < particles.Length ==>
          particles[k].position == old(particles[k].position) && particles[k].velocity == old(particles[k].velocity)
        invariant forall k :: 0 <= k < i && old(particles[k].kind) < settings.matrix.size ==>
          particles[k].kind == old(particles[k].kind)
        invariant forall k :: 0 <= k < i && old(particles[k].kind) >= settings.matrix.size ==>
          Gives(typeSetter, old(particles[k].position), old(particles[k].velocity), old(particles[k].kind),
                settings.matrix.size, particles[k].kind)
        invariant forall k :: i <= k < particles.Length ==> particles[k].kind == old(particles[k].kind)
        invariant SetterThrows() ==> forall k :: 0 <= k < i ==> old(particles[k].kind) < settings.matrix.size
      {
        var p := particles[i];
        if p.kind >= settings.matrix.size {
          var s := SetType(p);
          if s.Fail? {
            return s;
          }
        }
      }
      r := Pass;
      if RestoresRange(typeSetter) && settings.matrix.size >= 1 {
        forall i | 0 <= i < particles.Length && old(particles[i].kind) >= settings.matrix.size
          ensures 0 <= particles[i].kind < settings.matrix.size
        {
          RestoredInRange(typeSetter, old(particles[i].position), old(particles[i].velocity), old(particles[i].kind),
                          settings.matrix.size, particles[i].kind);
        }
      }
    }

    /**
     * `setMatrixSize`: the same size keeps the matrix object; another size
     * gives a new matrix from the generator whose common top-left block is
     * copied from the old one, and shrinking retypes the particles whose
     * type no longer fits with the installed type setter. A throwing setter
     * throws after the matrix has been replaced, with no type changed.
     */
    method SetMatrixSize(newSize: nat) returns (r: Outcome<string>)
      requires Valid()
      modifies settings, set p | p in particles[..]
      ensures Valid() && ScalarsKept()
      ensures newSize == old(settings.matrix.size) ==> settings.matrix == old(settings.matrix)
      ensures newSize != old(settings.matrix.size) ==> fresh(settings.matrix) && settings.matrix.size == newSize
      ensures newSize != old(settings.matrix.size) ==>
        forall i, j :: 0 <= i < newSize && 0 <= j < newSize ==>
          if i < old(settings.matrix.size) && j < old(settings.matrix.size)
          then settings.matrix.Get(i, j) == old(settings.matrix.Rows())[i][j]
          else Fits(matrixGenerator, newSize, i, j, settings.matrix.Get(i, j))
      ensures forall i :: 0 <= i < particles.Length ==>
        particles[i].position == old(particles[i].position) && particles[i].velocity == old(particles[i].velocity)
      ensures r.Fail? <==>
        (newSize < old(settings.matrix.size) && SetterThrows() &&
         exists i :: 0 <= i < particles.Length && old(particles[i].kind) >= newSize)
      ensures forall i :: 0 <= i < particles.Length && (r.Fail? || newSize >= old(settings.matrix.size) || old(particles[i].kind) < newSize) ==>
        particles[i].kind == old(particles[i].kind)
      ensures r.Pass? && newSize < old(settings.matrix.size) ==>
        forall i :: 0 <= i < particles.Length && old(particles[i].kind) >= newSize ==>
          Gives(typeSetter, old(particles[i].position), old(particles[i].velocity), old(particles[i].kind), newSize, particles[i].kind)
      ensures r.Pass? && newSize < old(settings.matrix.size) && RestoresRange(typeSetter) && newSize >= 1 ==>
        forall i :: 0 <= i < particles.Length && old(particles[i].kind) >= newSize ==> 0 <= particles[i].kind < newSize
    {
      r := Pass;
      var prevMatrix := settings.matrix;
      var prevSize := prevMatrix.size;
      if newSize == prevSize {
        return;
      }
      var m := ResizedMatrix(matrixGenerator, prevMatrix, newSize);
      settings.matrix := m;
      if newSize < prevSize {
        r := EnsureTypes();
      }
    }

    /**
     * `makeContainers`: the grid is recomputed from the interaction radius,
     * the particles are counted per cell, the counts are turned into
     * offsets, the particles are scattered into the buffer cell by cell, and
     * the buffer becomes the particle array. Afterwards the particles are a
     * permutation of the old ones ordered by cell, and cell c occupies
     * [CellStart(c), containers[c]).
     */
    method MakeContainers()
      requires Valid() && settings.rmax > 0.0
      requires forall i :: 0 <= i < particles.Length ==> InWorld(particles[i].position)
      modifies this, containers, particlesBuffer
      ensures Valid()
      ensures settings == old(settings) && matrixGenerator == old(matrixGenerator)
      ensures containerSize == settings.rmax && nx == CellsPerSide(settings.rmax) && ny == nx
      ensures containers != null && containers.Length == nx * ny
      ensures particlesBuffer == old(particles)
      ensures multiset(particles[..]) == multiset(old(particles[..]))
      ensures CellLayout(particles[..], containers[..], containerSize, nx, ny)
    {
      containerSize := settings.rmax;
      nx := CellsPerSide(containerSize);
      ny := CellsPerSide(containerSize);
      InitArrays();
      SortAndSwap();
    }

    /**
     * The passes of `makeContainers` over the arrays `InitArrays` set up,
     * then the swap: the sorted buffer becomes the particle array and the
     * old particle array the buffer.
     */
    method SortAndSwap()
      requires Valid() && nx == ny == CellsPerSide(containerSize)
      requires containers != null && containers.Length == nx * ny
      requires particlesBuffer != null && particlesBuffer.Length == particles.Length
      requires forall i :: 0 <= i < particles.Length ==> InWorld(particles[i].position)
      modifies this, containers, particlesBuffer
      ensures Valid()
      ensures particles == old(particlesBuffer) && particlesBuffer == old(particles)
      ensures settings == old(settings) && containers == old(containers) && matrixGenerator == old(matrixGenerator)
      ensures nx == old(nx) && ny == old(ny) && containerSize == old(containerSize)
      ensures multiset(particles[..]) == multiset(old(particles[..]))
      ensures CellLayout(particles[..], containers[..], containerSize, nx, ny)
    {
      var ps, cont, buf := particles, containers, particlesBuffer;
      // the buffers are swapped before the passes fill the new particle
      // array: the passes only touch the arrays, so the end state is the same
      particles := buf;
      particlesBuffer := ps;
      SortIntoCells(ps, buf, cont, containerSize, nx, ny);
      assert particles == buf && containers == cont;
      PermutationDistinct(ps[..], buf[..]);
    }

    /**
     * The array set-up of `makeContainers`: a container array of nx * ny
     * entries and a particle buffer as long as the particle array, each kept
     * when it already has that length and allocated otherwise.
     */
    method InitArrays()
      requires particlesBuffer != particles && nx >= 0 && ny >= 0
      modifies this
      ensures containers != null && containers.Length == nx * ny
      ensures old(containers) != null && old(containers.Length) == nx * ny ==> containers == old(containers)
      ensures old(containers) == containers || fresh(containers)
      ensures particlesBuffer != null && particlesBuffer.Length == particles.Length && particlesBuffer != particles
      ensures old(particlesBuffer) != null && old(particlesBuffer.Length) == particles.Length ==> particlesBuffer == old(particlesBuffer)
      ensures old(particlesBuffer) == particlesBuffer || fresh(particlesBuffer)
      ensures settings == old(settings) && particles == old(particles) && matrixGenerator == old(matrixGenerator)
      ensures nx == old(nx) && ny == old(ny) && containerSize == old(containerSize)
    {
      if containers == null || containers.Length != nx * ny {
        containers := new int[nx * ny];
      }
      if particlesBuffer == null || particlesBuffer.Length != particles.Length {
        var filler := new Particle();
        particlesBuffer := new Particle[particles.Length](_ => filler);
      }
    }

    /**
     * `connection`: the difference `pos2 - pos1`, folded onto the shortest
     * periodic image when the world wraps.
     */
    function Connection(pos1: Vec3, pos2: Vec3): (r: Vec3)
      reads this, settings
      ensures !settings.wrap ==> r == Sub3(pos2, pos1)
      ensures settings.wrap ==> r.z == 0.0
      ensures settings.wrap && InUnitSquare(pos1) && InUnitSquare(pos2) ==>
        -0.5 <= r.x < 0.5 && -0.5 <= r.y < 0.5
        && Wrapped(r.x) == Wrapped(pos2.x - pos1.x) && Wrapped(r.y) == Wrapped(pos2.y - pos1.y)
    {
      var delta := Sub3(pos2, pos1);
      if settings.wrap then
        if InUnitSquare(pos1) && InUnitSquare(pos2) then
          WrapConnectionShortest(pos1.x, pos2.x);
          WrapConnectionShortest(pos1.y, pos2.y);
          FoldedConnection(delta)
        else
          FoldedConnection(delta)
      else
        delta
    }

    /** `ensurePosition`: wraps the position in place when the world wraps and clamps it otherwise. */
    method EnsurePosition(position: Vector3d)
      modifies position
      ensures position.Value() == Ensured(settings.wrap, old(position.Value()))
      ensures InBounds(settings.wrap, position.Value())
    {
      if settings.wrap {
        Wrap(position);
      } else {
        Clamp(position);
      }
      EnsuredFixedPoints(settings.wrap, old(position.Value()));
    }

    /**
     * `setType`: the installed type setter picks a new type for `p` from its
     * position, velocity and old type, with arbitrary draws; nothing else of
     * `p` changes. "rotate" with no types throws and leaves `p` alone.
     */
    method SetType(p: Particle) returns (r: Outcome<string>)
      modifies p
      ensures p.position == old(p.position) && p.velocity == old(p.velocity)
      ensures r.Fail? <==> SetterThrows()
      ensures r.Fail? ==> p.kind == old(p.kind)
      ensures r.Pass? ==> Gives(typeSetter, p.position, p.velocity, old(p.kind), settings.matrix.size, p.kind)
    {
      var u1: real :| Draw(u1);
      var u2: real :| Draw(u2);
      var t := Apply(typeSetter, p.position, p.velocity, p.kind, settings.matrix.size, u1, u2);
      if t.None? {
        return Fail("/ by zero");
      }
      p.kind := t.value;
      r := Pass;
    }

    /**
     * `setPosition`: the position setter proposes an arbitrary position,
     * `ensurePosition` brings it into bounds, and the velocity becomes 0.
     */
    method SetPosition(p: Particle)
      modifies p
      ensures InBounds(settings.wrap, p.position)
      ensures p.velocity == Zero3 && p.kind == old(p.kind)
    {
      var proposed: Vec3 :| true;
      var position := new Vector3d(proposed.x, proposed.y, proposed.z);
      EnsurePosition(position);
      p.position := position.Value();
      p.velocity := Zero3;
    }

    /**
     * `generateParticle`: a new particle with a type from the type setter and
     * a position from the position setter; a throwing type setter ends it.
     */
    method GenerateParticle() returns (p: Particle, r: Outcome<string>)
      ensures fresh(p)
      ensures r.Fail? <==> SetterThrows()
      ensures r.Pass? ==> Spawned(p)
    {
      p := new Particle();
      r := SetType(p);
      if r.Fail? {
        return;
      }
      SetPosition(p);
    }
  }
}
