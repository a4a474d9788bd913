/**
 * `MatrixParser`: reading a matrix from free-form text (whitespace-separated
 * numbers, the largest square that fits) and printing a matrix as
 * tab-separated rows. Number printing and parsing are parameters: `fmt`
 * stands for `String.format("%f")`, `fmt1` for the digits of
 * `String.format("%.1f")` (the width-4 padding of "%4.1f" is modelled), and
 * `dec` for `Float.parseFloat` widened to double.
 */
module MatrixParsing {
  import opened Wrappers
  import opened Text
  import opened Matrices

  /** `(int) Math.sqrt(n)`: the integer square root. */
  function ISqrt(n: nat): (r: nat)
    ensures r * r <= n < (r + 1) * (r + 1)
    ensures r == 0 <==> n == 0
  {
    if n == 0 then 0
    else
      var r := ISqrt(n - 1);
      if (r + 1) * (r + 1) <= n then r + 1 else r
  }

  lemma SquareMonotone(a: nat, b: nat)
    requires a <= b
    ensures a * a <= b * b
  {
    MulMonotone(a, b, a);
    MulMonotone(a, b, b);
  }

  lemma MulMonotone(a: nat, b: nat, c: nat)
    requires a <= b
    ensures a * c <= b * c
  {
  }

  /** The integer square root of a perfect square is its root. */
  lemma ISqrtOfSquare(n: nat)
    ensures ISqrt(n * n) == n
  {
    SquareBetween(ISqrt(n * n), n);
  }

  /** Only n itself has n * n between its square and the next one. */
  lemma SquareBetween(r: nat, n: nat)
    requires r * r <= n * n < (r + 1) * (r + 1)
    ensures r == n
  {
    if r < n {
      SquareMonotone(r + 1, n);
    } else if r > n {
      SquareMonotone(n + 1, r);
    }
  }

  /** Row-major position of entry (i, j) lies within the first `n * n` places. */
  lemma RowMajorBound(i: nat, j: nat, n: nat)
    requires i < n && j < n
    ensures i * n + j < n * n
  {
    MulMonotone(i + 1, n, n);
  }

  /** The numbers `dec` reads from the pieces of `t` between whitespace characters. */
  function Readings(t: string, dec: string -> Option<real>): seq<real>
  {
    ParsedOnly(SplitAll(t, Whitespace), dec)
  }

  /** The numbers of the input: every whitespace-separated token that parses, in order. */
  function Numbers(s: string, dec: string -> Option<real>): (r: seq<real>)
    ensures |r| <= |JavaSplit(s, Whitespace)|
  {
    ParsedOnly(JavaSplit(s, Whitespace), dec)
  }

  /** `nums` holds the rows of `rows`, each of length `n`, one after the other from its start. */
  predicate RowMajor(rows: seq<seq<real>>, n: nat, nums: seq<real>)
    requires forall i :: 0 <= i < |rows| ==> |rows[i]| == n
  {
    forall i, j :: 0 <= i < |rows| && 0 <= j < n ==> RowEntry(rows, n, nums, i, j)
  }

  /** Entry (i, j) of `rows` is number i * n + j of `nums`. */
  predicate RowEntry(rows: seq<seq<real>>, n: nat, nums: seq<real>, i: nat, j: nat)
    requires i < |rows| && j < |rows[i]|
  {
    i * n + j < |nums| && rows[i][j] == nums[i * n + j]
  }

  /** `parseMatrix`: null when no number is found; otherwise the largest square, filled row by row. */
  method ParseMatrix(s: string, dec: string -> Option<real>) returns (m: DefaultMatrix?)
    ensures m == null <==> ISqrt(|Numbers(s, dec)|) == 0
    ensures m != null ==> fresh(m) && fresh(m.values) && m.Valid()
    ensures m != null ==> m.size == ISqrt(|Numbers(s, dec)|) && RowMajor(m.Rows(), m.size, Numbers(s, dec))
  {
    var numbers := CollectNumbers(JavaSplit(s, Whitespace), dec);
    var n := ISqrt(|numbers|);
    if n < 1 {
      return null;
    }
    m := FillRowMajor(numbers, n);
  }

  /** The parse loop of `parseMatrix`: the tokens that parse, in order. */
  method CollectNumbers(parts: seq<string>, dec: string -> Option<real>) returns (numbers: seq<real>)
    ensures numbers == ParsedOnly(parts, dec)
  {
    numbers := [];
    for k := 0 to |parts|
      invariant numbers == ParsedOnly(parts[..k], dec)
    {
      assert parts[..k + 1][..k] == parts[..k];
      match dec(parts[k]) {
        case None =>
        case Some(f) => numbers := numbers + [f];
      }
    }
    assert parts[..|parts|] == parts;
  }

  /** The fill loop of `parseMatrix`: a new `n` by `n` matrix taking the numbers row by row. */
  method FillRowMajor(numbers: seq<real>, n: nat) returns (m: DefaultMatrix)
    requires n * n <= |numbers|
    ensures fresh(m) && fresh(m.values) && m.Valid() && m.size == n
    ensures RowMajor(m.Rows(), n, numbers)
  {
    m := new DefaultMatrix(n);
    for i := 0 to n
      invariant m.Valid() && m.size == n && fresh(m.values)
      invariant forall a, b :: 0 <= a < i && 0 <= b < n ==> m.values[a, b] == Cell(numbers, n, a, b)
    {
      FillRow(m, numbers, n, i);
    }
    CellsRowMajor(m.Rows(), numbers, n);
  }

  /** The inner loop of the fill: row i takes its n numbers; the other rows stay. */
  method FillRow(m: DefaultMatrix, numbers: seq<real>, n: nat, i: nat)
    requires m.Valid() && m.size == n && n * n <= |numbers| && i < n
    modifies m.values
    ensures forall a, b :: 0 <= a < n && 0 <= b < n ==>
      m.values[a, b] == if a == i then Cell(numbers, n, a, b) else old(m.values[a, b])
  {
    for j := 0 to n
      invariant forall a, b :: 0 <= a < n && 0 <= b < n ==>
        m.values[a, b] == if a == i && b < j then Cell(numbers, n, a, b) else old(m.values[a, b])
    {
      m.Set(i, j, Cell(numbers, n, i, j));
    }
  }

  /** Rows whose entry (a, b) is number a * n + b are the numbers laid out row-major. */
  lemma CellsRowMajor(rows: seq<seq<real>>, numbers: seq<real>, n: nat)
    requires IsSquare(rows, n) && n * n <= |numbers|
    requires forall a, b :: 0 <= a < n && 0 <= b < n ==> rows[a][b] == Cell(numbers, n, a, b)
    ensures RowMajor(rows, n, numbers)
  {
    forall a, b | 0 <= a < n && 0 <= b < n
      ensures RowEntry(rows, n, numbers, a, b)
    {
      RowMajorBound(a, b, n);
    }
  }

  /** Number `i * n + j` of `nums`, the source of entry (i, j). */
  function Cell(nums: seq<real>, n: nat, i: nat, j: nat): real
    requires n * n <= |nums| && i < n && j < n
  {
    RowMajorBound(i, j, n);
    nums[i * n + j]
  }

  /** The printed text of a matrix: one line per row, entries separated by tabs, each line ended by a line feed. */
  function MatrixText(rows: seq<seq<real>>, n: nat, enc: real -> string): string
    requires IsSquare(rows, n)
  {
    Terminated(seq(n, i requires 0 <= i < n => RowText(rows[i], enc)), "\n")
  }

  function RowText(row: seq<real>, enc: real -> string): string
  {
    Join(seq(|row|, j requires 0 <= j < |row| => enc(row[j])), "\t")
  }

  /** `matrixToString(matrix, encoder)`: the rows printed with `enc`. */
  method MatrixToStringWith(m: DefaultMatrix, enc: real -> string) returns (s: string)
    requires m.Valid()
    ensures s == MatrixText(m.Rows(), m.size, enc)
  {
    var n := m.size;
    ghost var rows := m.Rows();
    ghost var lines := seq(n, i requires 0 <= i < n => RowText(rows[i], enc));
    s := "";
    for i := 0 to n
      invariant s == Terminated(lines[..i], "\n")
    {
      TerminatedSnoc(lines, i, "\n");
      s := AppendRow(s, m, i, enc);
    }
    assert lines[..n] == lines;
  }

  /** One pass of the outer loop: row `i`, tab-separated, then a line feed. */
  method AppendRow(s0: string, m: DefaultMatrix, i: nat, enc: real -> string) returns (s: string)
    requires m.Valid() && i < m.size
    ensures s == s0 + RowText(m.Rows()[i], enc) + "\n"
  {
    var n := m.size;
    ghost var row := m.Rows()[i];
    ghost var toks := seq(n, j requires 0 <= j < n => enc(row[j]));
    s := s0;
    for j := 0 to n - 1
      invariant s == s0 + Terminated(toks[..j], "\t")
    {
      TerminatedSnoc(toks, j, "\t");
      s := s + enc(m.Get(i, j)) + "\t";
    }
    TerminatedThenLast(toks, "\t");
    assert RowText(row, enc) == Join(toks, "\t");
    s := s + enc(m.Get(i, n - 1)) + "\n";
  }

  /** `matrixToString`: entries printed as by "%f". */
  method MatrixToString(m: DefaultMatrix, fmt: real -> string) returns (s: string)
    requires m.Valid()
    ensures s == MatrixText(m.Rows(), m.size, fmt)
  {
    s := MatrixToStringWith(m, fmt);
  }

  /** `t` right-justified in a field of width `w`, as a "%w..." format pads it. */
  function PadLeft(t: string, w: nat): (r: string)
    ensures |r| >= |t| && |r| >= w
    ensures r[|r| - |t|..] == t
    ensures forall k :: 0 <= k < |r| - |t| ==> r[k] == ' '
  {
    if |t| >= w then t else seq(w - |t|, _ => ' ') + t
  }

  /** The "%4.1f" encoder: the one-decimal digits, left-padded with spaces to width 4. */
  function RoundAndFormat(fmt1: real -> string): real -> string
  {
    x => PadLeft(fmt1(x), 4)
  }

  /** `matrixToStringRoundAndFormat`: entries printed as by "%4.1f". */
  method MatrixToStringRoundAndFormat(m: DefaultMatrix, fmt1: real -> string) returns (s: string)
    requires m.Valid()
    ensures s == MatrixText(m.Rows(), m.size, RoundAndFormat(fmt1))
  {
    s := MatrixToStringWith(m, RoundAndFormat(fmt1));
  }

  /** A token without whitespace reads as its own value, if it has one. */
  lemma ReadingsFree(t: string, dec: string -> Option<real>)
    requires FreeOf(t, Whitespace)
    ensures Readings(t, dec) == if dec(t).Some? then [dec(t).value] else []
  {
    SplitAllFree(t, Whitespace);
    assert ParsedOnly([t], dec) == ParsedOnly([t][..0], dec) + (if dec(t).Some? then [dec(t).value] else []);
  }

  /** Leading spaces add only empty pieces, which do not parse. */
  lemma {:induction false} ReadingsPadded(k: nat, t: string, dec: string -> Option<real>)
    requires dec("").None?
    ensures Readings(seq(k, _ => ' ') + t, dec) == Readings(t, dec)
    decreases k
  {
    if k > 0 {
      var p := seq(k, _ => ' ') + t;
      assert p == [' '] + (seq(k - 1, _ => ' ') + t);
      assert p[0] == ' ' && p[1..] == seq(k - 1, _ => ' ') + t;
      assert SplitAll(p, Whitespace) == [""] + SplitAll(p[1..], Whitespace);
      ParsedOnlyAppend([""], SplitAll(p[1..], Whitespace), dec);
      assert ParsedOnly([""], dec) == [];
      ReadingsPadded(k - 1, t, dec);
    } else {
      assert seq(k, _ => ' ') + t == t;
    }
  }

  /** The readings of several strings, one after the other. */
  function ReadingsOfAll(ls: seq<string>, dec: string -> Option<real>): seq<real>
  {
    if |ls| == 0 then [] else Readings(ls[0], dec) + ReadingsOfAll(ls[1..], dec)
  }

  /** Tokens joined with a whitespace separator read as the tokens' readings in turn. */
  lemma {:induction false} ReadingsJoin(ps: seq<string>, c: char, dec: string -> Option<real>)
    requires |ps| >= 1 && c in Whitespace
    ensures Readings(Join(ps, [c]), dec) == ReadingsOfAll(ps, dec)
    decreases |ps|
  {
    if |ps| == 1 {
      assert ReadingsOfAll(ps, dec) == Readings(ps[0], dec) + ReadingsOfAll([], dec);
    } else {
      SplitAllAppend(ps[0], c, Join(ps[1..], [c]), Whitespace);
      ParsedOnlyAppend(SplitAll(ps[0], Whitespace), SplitAll(Join(ps[1..], [c]), Whitespace), dec);
      ReadingsJoin(ps[1..], c, dec);
    }
  }

  /** Lines each ended by a whitespace character read as the lines' readings in turn. */
  lemma {:induction false} ReadingsTerminated(ls: seq<string>, c: char, dec: string -> Option<real>)
    requires c in Whitespace && dec("").None?
    ensures Readings(Terminated(ls, [c]), dec) == ReadingsOfAll(ls, dec)
    decreases |ls|
  {
    if |ls| == 0 {
      assert ParsedOnly([""], dec) == ParsedOnly([""][..0], dec);
    } else {
      SplitAllAppend(ls[0], c, Terminated(ls[1..], [c]), Whitespace);
      ParsedOnlyAppend(SplitAll(ls[0], Whitespace), SplitAll(Terminated(ls[1..], [c]), Whitespace), dec);
      ReadingsTerminated(ls[1..], c, dec);
    }
  }

  /** Java's dropping of trailing empty tokens does not change which numbers are found. */
  lemma NumbersAreReadings(s: string, dec: string -> Option<real>)
    requires dec("").None?
    ensures Numbers(s, dec) == Readings(s, dec)
  {
    if FreeOf(s, Whitespace) {
      SplitAllFree(s, Whitespace);
    } else {
      ParsedOnlyDropTrailing(SplitAll(s, Whitespace), dec);
    }
  }

  /** Strings that read as one number each give those numbers in order. */
  lemma {:induction false} ReadingsOfSingles(ts: seq<string>, dec: string -> Option<real>)
    requires forall j :: 0 <= j < |ts| ==> |Readings(ts[j], dec)| == 1
    ensures ReadingsOfAll(ts, dec) == seq(|ts|, j requires 0 <= j < |ts| => Readings(ts[j], dec)[0])
    decreases |ts|
  {
    if |ts| > 0 {
      ReadingsOfSingles(ts[1..], dec);
    }
  }

  /** The rows of `r` one after the other. */
  function Flatten(r: seq<seq<real>>): seq<real>
  {
    if |r| == 0 then [] else r[0] + Flatten(r[1..])
  }

  /** Lines whose readings are the rows of `r` read as the rows one after the other. */
  lemma {:induction false} ReadingsOfRows(ls: seq<string>, r: seq<seq<real>>, dec: string -> Option<real>)
    requires |r| == |ls|
    requires forall i :: 0 <= i < |ls| ==> Readings(ls[i], dec) == r[i]
    ensures ReadingsOfAll(ls, dec) == Flatten(r)
    decreases |ls|
  {
    if |ls| > 0 {
      ReadingsOfRows(ls[1..], r[1..], dec);
    }
  }

  /** Rows of equal length, flattened, are laid out row-major. */
  lemma FlattenRowMajor(r: seq<seq<real>>, n: nat)
    requires forall i :: 0 <= i < |r| ==> |r[i]| == n
    ensures |Flatten(r)| == |r| * n && RowMajor(r, n, Flatten(r))
  {
    FlattenLength(r, n);
    forall i, j | 0 <= i < |r| && 0 <= j < n
      ensures RowEntry(r, n, Flatten(r), i, j)
    {
      FlattenEntry(r, n, i, j);
    }
  }

  /** Rows of length n, flattened, hold n numbers per row. */
  lemma {:induction false} FlattenLength(r: seq<seq<real>>, n: nat)
    requires forall i :: 0 <= i < |r| ==> |r[i]| == n
    ensures |Flatten(r)| == |r| * n
    decreases |r|
  {
    if |r| > 0 {
      FlattenLength(r[1..], n);
      NextRow(|r|, 0, n);
    }
  }

  /** Entry (i, j) of rows of length n is number i * n + j of the flattened rows. */
  lemma {:induction false} FlattenEntry(r: seq<seq<real>>, n: nat, i: nat, j: nat)
    requires forall k :: 0 <= k < |r| ==> |r[k]| == n
    requires i < |r| && j < n
    ensures i * n + j < |Flatten(r)| && Flatten(r)[i * n + j] == r[i][j]
    decreases i
  {
    var rest := Flatten(r[1..]);
    assert Flatten(r) == r[0] + rest;
    if i > 0 {
      FlattenEntry(r[1..], n, i - 1, j);
      NextRow(i, j, n);
      assert Flatten(r)[n + ((i - 1) * n + j)] == rest[(i - 1) * n + j];
    }
  }

  /** Position (i, j) of a row-major layout is position (i - 1, j) after the first row. */
  lemma NextRow(i: nat, j: nat, n: nat)
    requires i > 0
    ensures i * n + j == n + ((i - 1) * n + j)
  {
  }

  /** Every printed entry yields exactly one number when read back. */
  predicate ReadsBackSingly(rows: seq<seq<real>>, n: nat, enc: real -> string, dec: string -> Option<real>)
    requires IsSquare(rows, n)
  {
    forall i, j :: 0 <= i < n && 0 <= j < n ==> |Readings(enc(rows[i][j]), dec)| == 1
  }

  /** The matrix of numbers the printed entries read back as. */
  function ReadBack(rows: seq<seq<real>>, n: nat, enc: real -> string, dec: string -> Option<real>): (r: seq<seq<real>>)
    requires IsSquare(rows, n) && ReadsBackSingly(rows, n, enc, dec)
    ensures IsSquare(r, n)
  {
    seq(n, i requires 0 <= i < n => seq(n, j requires 0 <= j < n => Readings(enc(rows[i][j]), dec)[0]))
  }

  /**
   * Parsing printed text finds exactly `n * n` numbers, so the parsed matrix
   * has the printed one's size, and they are the printed entries as read back.
   */
  lemma ParseMatrixText(rows: seq<seq<real>>, n: nat, enc: real -> string, dec: string -> Option<real>)
    requires IsSquare(rows, n) && n >= 1 && dec("").None?
    requires ReadsBackSingly(rows, n, enc, dec)
    ensures |Numbers(MatrixText(rows, n, enc), dec)| == n * n
    ensures ISqrt(|Numbers(MatrixText(rows, n, enc), dec)|) == n
    ensures RowMajor(ReadBack(rows, n, enc, dec), n, Numbers(MatrixText(rows, n, enc), dec))
  {
    var lines := seq(n, i requires 0 <= i < n => RowText(rows[i], enc));
    var back := ReadBack(rows, n, enc, dec);
    NumbersAreReadings(MatrixText(rows, n, enc), dec);
    ReadingsTerminated(lines, '\n', dec);
    forall i | 0 <= i < n
      ensures Readings(lines[i], dec) == back[i]
    {
      var toks := seq(n, j requires 0 <= j < n => enc(rows[i][j]));
      assert lines[i] == Join(toks, "\t");
      ReadingsJoin(toks, '\t', dec);
      ReadingsOfSingles(toks, dec);
    }
    ReadingsOfRows(lines, back, dec);
    FlattenRowMajor(back, n);
    ISqrtOfSquare(n);
  }

  /**
   * `parseMatrix(matrixToString(m))`: with a "%f" printer whose tokens are
   * non-empty, free of whitespace and parse, the parsed matrix has m's size
   * and, at (i, j), the parse of the printed entry (i, j).
   */
  lemma MatrixToStringRoundTrip(rows: seq<seq<real>>, n: nat, fmt: real -> string, dec: string -> Option<real>)
    requires IsSquare(rows, n) && n >= 1 && dec("").None?
    requires forall i, j :: 0 <= i < n && 0 <= j < n ==>
      FreeOf(fmt(rows[i][j]), Whitespace) && dec(fmt(rows[i][j])).Some?
    ensures ISqrt(|Numbers(MatrixText(rows, n, fmt), dec)|) == n
    ensures RowMajor(seq(n, i requires 0 <= i < n => seq(n, j requires 0 <= j < n => dec(fmt(rows[i][j])).value)),
                     n, Numbers(MatrixText(rows, n, fmt), dec))
  {
    forall i, j | 0 <= i < n && 0 <= j < n
      ensures Readings(fmt(rows[i][j]), dec) == [dec(fmt(rows[i][j])).value]
    {
      ReadingsFree(fmt(rows[i][j]), dec);
    }
    ParseMatrixText(rows, n, fmt, dec);
    var expected := seq(n, i requires 0 <= i < n => seq(n, j requires 0 <= j < n => dec(fmt(rows[i][j])).value));
    assert forall i :: 0 <= i < n ==> ReadBack(rows, n, fmt, dec)[i] == expected[i];
    assert ReadBack(rows, n, fmt, dec) == expected;
  }

  /**
   * The same round trip through `matrixToStringRoundAndFormat`: the padding
   * spaces of "%4.1f" only produce empty tokens, which the parser skips.
   */
  lemma RoundAndFormatRoundTrip(rows: seq<seq<real>>, n: nat, fmt1: real -> string, dec: string -> Option<real>)
    requires IsSquare(rows, n) && n >= 1 && dec("").None?
    requires forall i, j :: 0 <= i < n && 0 <= j < n ==>
      FreeOf(fmt1(rows[i][j]), Whitespace) && dec(fmt1(rows[i][j])).Some?
    ensures ISqrt(|Numbers(MatrixText(rows, n, RoundAndFormat(fmt1)), dec)|) == n
    ensures RowMajor(seq(n, i requires 0 <= i < n => seq(n, j requires 0 <= j < n => dec(fmt1(rows[i][j])).value)),
                     n, Numbers(MatrixText(rows, n, RoundAndFormat(fmt1)), dec))
  {
    var enc := RoundAndFormat(fmt1);
    forall i, j | 0 <= i < n && 0 <= j < n
      ensures Readings(enc(rows[i][j]), dec) == [dec(fmt1(rows[i][j])).value]
    {
      PaddedReading(fmt1, rows[i][j], dec);
    }
    ParseMatrixText(rows, n, enc, dec);
    var expected := seq(n, i requires 0 <= i < n => seq(n, j requires 0 <= j < n => dec(fmt1(rows[i][j])).value));
    assert forall i :: 0 <= i < n ==> ReadBack(rows, n, enc, dec)[i] == expected[i];
    assert ReadBack(rows, n, enc, dec) == expected;
  }

  /** A "%4.1f" token reads as its digits do. */
  lemma PaddedReading(fmt1: real -> string, x: real, dec: string -> Option<real>)
    requires dec("").None? && FreeOf(fmt1(x), Whitespace) && dec(fmt1(x)).Some?
    ensures Readings(RoundAndFormat(fmt1)(x), dec) == [dec(fmt1(x)).value]
  {
    var t := fmt1(x);
    var k := if |t| >= 4 then 0 else 4 - |t|;
    assert RoundAndFormat(fmt1)(x) == seq(k, _ => ' ') + t;
    ReadingsPadded(k, t, dec);
    ReadingsFree(t, dec);
  }
}
