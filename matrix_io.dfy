/**
 * `MatrixIO`: the tab-separated matrix file format. Streams are strings,
 * `enc` stands for `Double.toString` (what `PrintWriter.print(double)`
 * writes) and `dec` for `Double.parseDouble`, `None` where it throws.
 */
module MatrixFiles {
  import opened Wrappers
  import opened Text
  import opened Matrices
  import opened MatrixParsing

  /** One line: its tab-separated fields, each parsed; `None` if any field does not parse. */
  function ParseRow(line: string, dec: string -> Option<real>): Option<seq<real>>
  {
    ParseEach(JavaSplit(line, {'\t'}), dec)
  }

  /** The stream stage of `loadMatrix`: every line parsed into a row of numbers. */
  function ParseRows(text: string, dec: string -> Option<real>): (r: Option<seq<seq<real>>>)
    ensures r.Some? ==> |r.value| == |Lines(text)|
  {
    ParseEach(Lines(text), line => ParseRow(line, dec))
  }

  /** Every row has at least as many fields as there are rows. */
  predicate LongEnough(rows: seq<seq<real>>)
  {
    forall i :: 0 <= i < |rows| ==> |rows[i]| >= |rows|
  }

  /**
   * `loadMatrix`: a matrix with one row per input line, entry (i, j) being
   * field j of line i; null (the stream throws) when a field does not parse
   * or a line has fewer fields than there are lines. Surplus fields are ignored.
   */
  method LoadMatrix(text: string, dec: string -> Option<real>) returns (m: DefaultMatrix?)
    ensures m == null <==> ParseRows(text, dec).None? || !LongEnough(ParseRows(text, dec).value)
    ensures m != null ==> fresh(m) && fresh(m.values) && m.Valid() && m.size == |Lines(text)|
    ensures m != null ==> forall i, j :: 0 <= i < m.size && 0 <= j < m.size ==>
      m.Get(i, j) == ParseRows(text, dec).value[i][j]
  {
    var parsed := ParseRows(text, dec);
    if parsed.None? {
      return null;
    }
    m := FillRows(parsed.value);
  }

  /** The fill loop of `loadMatrix`: null at the first row too short for the matrix. */
  method FillRows(rows: seq<seq<real>>) returns (m: DefaultMatrix?)
    ensures m == null <==> !LongEnough(rows)
    ensures m != null ==> fresh(m) && fresh(m.values) && m.Valid() && m.size == |rows|
    ensures m != null ==> forall i, j :: 0 <= i < m.size && 0 <= j < m.size ==> m.Get(i, j) == rows[i][j]
  {
    var n := |rows|;
    m := new DefaultMatrix(n);
    for i := 0 to n
      invariant m.Valid() && m.size == n && fresh(m) && fresh(m.values)
      invariant forall a :: 0 <= a < i ==> |rows[a]| >= n
      invariant forall a, b :: 0 <= a < i && 0 <= b < n ==> m.values[a, b] == rows[a][b]
    {
      for j := 0 to n
        invariant forall a, b :: 0 <= a < i && 0 <= b < n ==> m.values[a, b] == rows[a][b]
        invariant j <= |rows[i]|
        invariant forall b :: 0 <= b < j ==> m.values[i, b] == rows[i][b]
      {
        if j >= |rows[i]| {
          return null;
        }
        m.Set(i, j, rows[i][j]);
      }
    }
  }

  /** `saveMatrix`: each row's entries separated by single tabs, every row followed by a line feed. */
  method SaveMatrix(m: DefaultMatrix, enc: real -> string) returns (s: string)
    requires m.Valid()
    ensures s == MatrixText(m.Rows(), m.size, enc)
  {
    var n := m.size;
    ghost var rows := m.Rows();
    ghost var lines := seq(n, i requires 0 <= i < n => RowText(rows[i], enc));
    s := "";
    for i := 0 to n
      invariant s == Terminated(lines[..i], "\n")
    {
      TerminatedSnoc(lines, i, "\n");
      s := SaveRow(s, m, i, enc);
    }
    assert lines[..n] == lines;
  }

  /** One row of `saveMatrix`: a tab after every entry but the last, then a line feed. */
  method SaveRow(s0: string, m: DefaultMatrix, i: nat, enc: real -> string) returns (s: string)
    requires m.Valid() && i < m.size
    ensures s == s0 + RowText(m.Rows()[i], enc) + "\n"
  {
    var n := m.size;
    ghost var row := m.Rows()[i];
    ghost var toks := seq(n, j requires 0 <= j < n => enc(row[j]));
    s := s0;
    for j := 0 to n
      invariant j < n ==> s == s0 + Terminated(toks[..j], "\t")
      invariant j == n ==> s == s0 + Terminated(toks[..n - 1], "\t") + toks[n - 1]
    {
      s := s + enc(m.Get(i, j));
      if j < n - 1 {
        TerminatedSnoc(toks, j, "\t");
        s := s + "\t";
      }
    }
    TerminatedThenLast(toks, "\t");
    assert RowText(row, enc) == Join(toks, "\t");
    s := s + "\n";
  }

  /** The printer writes each entry as a non-empty token that `dec` parses back exactly. */
  predicate ExactTokens(rows: seq<seq<real>>, n: nat, enc: real -> string, dec: string -> Option<real>)
    requires IsSquare(rows, n)
  {
    forall i, j :: 0 <= i < n && 0 <= j < n ==>
      enc(rows[i][j]) != "" && FreeOf(enc(rows[i][j]), {'\t', '\n'}) && dec(enc(rows[i][j])) == Some(rows[i][j])
  }

  /** `loadMatrix(saveMatrix(m))`: the saved text parses back to exactly m's rows, each long enough. */
  lemma SaveLoadRoundTrip(rows: seq<seq<real>>, n: nat, enc: real -> string, dec: string -> Option<real>)
    requires IsSquare(rows, n) && ExactTokens(rows, n, enc, dec)
    ensures ParseRows(MatrixText(rows, n, enc), dec) == Some(rows)
    ensures LongEnough(rows)
  {
    var lines := seq(n, i requires 0 <= i < n => RowText(rows[i], enc));
    forall i | 0 <= i < n
      ensures FreeOf(lines[i], {'\n'}) && ParseRow(lines[i], dec) == Some(rows[i])
    {
      var toks := seq(n, j requires 0 <= j < n => enc(rows[i][j]));
      assert lines[i] == Join(toks, "\t");
      JoinFreeOf(toks, "\t", {'\n'});
      JavaSplitJoin(toks, '\t', {'\t'});
      var r := ParseEach(toks, dec);
      assert r.Some?;
      assert r.value == rows[i];
    }
    LinesTerminated(lines);
    var all := ParseRows(MatrixText(rows, n, enc), dec);
    assert all.Some?;
    assert all.value == rows;
  }

  /** Saving and loading again gives a new matrix equal to the saved one. */
  method SaveThenLoad(m: DefaultMatrix, enc: real -> string, dec: string -> Option<real>) returns (copy: DefaultMatrix?)
    requires m.Valid() && ExactTokens(m.Rows(), m.size, enc, dec)
    ensures copy != null && fresh(copy) && copy.Valid() && copy.size == m.size && copy.Rows() == old(m.Rows())
  {
    ghost var rows := m.Rows();
    var text := SaveMatrix(m, enc);
    SaveLoadRoundTrip(rows, m.size, enc, dec);
    copy := LoadMatrix(text, dec);
    SameEntries(copy.Rows(), rows, m.size);
  }

  /** Square rows of the same size with the same entries are the same rows. */
  lemma SameEntries(a: seq<seq<real>>, b: seq<seq<real>>, n: nat)
    requires IsSquare(a, n) && IsSquare(b, n)
    requires forall i, j :: 0 <= i < n && 0 <= j < n ==> a[i][j] == b[i][j]
    ensures a == b
  {
    forall i | 0 <= i < n ensures a[i] == b[i] {
    }
  }
}
