/**
 * The string operations the codecs rely on, with Java's semantics:
 * `String.split` on a single-character pattern, `BufferedReader.lines`,
 * joining, and `Integer.parseInt` / `Integer.toString`.
 */
module Text {
  import opened Wrappers

  const MinInt32: int := -0x8000_0000
  const MaxInt32: int := 0x7fff_ffff

  /** The characters of the pattern `\s`: space, tab, line feed, vertical tab, form feed, carriage return. */
  const Whitespace: set<char> := {' ', '\t', '\n', 11 as char, 12 as char, '\r'}

  predicate FreeOf(s: string, seps: set<char>)
  {
    forall k :: 0 <= k < |s| ==> s[k] !in seps
  }

  /**
   * Every piece between separators, empty ones included: a string with `m`
   * separator characters has `m + 1` pieces.
   */
  function SplitAll(s: string, seps: set<char>): (r: seq<string>)
    ensures |r| >= 1
    ensures forall k :: 0 <= k < |r| ==> FreeOf(r[k], seps)
    decreases |s|
  {
    if |s| == 0 then [""]
    else if s[0] in seps then [""] + SplitAll(s[1..], seps)
    else
      var rest := SplitAll(s[1..], seps);
      [[s[0]] + rest[0]] + rest[1..]
  }

  /** A separator-free string is a single piece. */
  lemma {:induction false} SplitAllFree(s: string, seps: set<char>)
    requires FreeOf(s, seps)
    ensures SplitAll(s, seps) == [s]
    decreases |s|
  {
    if |s| > 0 {
      SplitAllFree(s[1..], seps);
      assert [s[0]] + s[1..] == s;
    }
  }

  /** Splitting distributes over a separator: the pieces of `a` followed by the pieces of `t`. */
  lemma {:induction false} SplitAllAppend(a: string, d: char, t: string, seps: set<char>)
    requires d in seps
    ensures SplitAll(a + [d] + t, seps) == SplitAll(a, seps) + SplitAll(t, seps)
    decreases |a|
  {
    var s := a + [d] + t;
    if |a| == 0 {
      assert s == [d] + t;
      assert s[1..] == t;
    } else {
      assert s[1..] == a[1..] + [d] + t;
      SplitAllAppend(a[1..], d, t, seps);
    }
  }

  /** `ps` joined with `sep` between consecutive pieces. */
  function Join(ps: seq<string>, sep: string): (r: string)
  {
    if |ps| == 0 then ""
    else if |ps| == 1 then ps[0]
    else ps[0] + sep + Join(ps[1..], sep)
  }

  /** `ls`, each followed by `t`; the shape written by a `println` per line. */
  function Terminated(ls: seq<string>, t: string): (r: string)
  {
    if |ls| == 0 then "" else ls[0] + t + Terminated(ls[1..], t)
  }

  /** Joining pieces that contain no separator with a separator, then splitting, gives the pieces back. */
  lemma {:induction false} SplitJoin(ps: seq<string>, c: char, seps: set<char>)
    requires |ps| >= 1 && c in seps
    requires forall k :: 0 <= k < |ps| ==> FreeOf(ps[k], seps)
    ensures SplitAll(Join(ps, [c]), seps) == ps
    decreases |ps|
  {
    if |ps| == 1 {
      SplitAllFree(ps[0], seps);
    } else {
      SplitAllFree(ps[0], seps);
      SplitJoin(ps[1..], c, seps);
      SplitAllAppend(ps[0], c, Join(ps[1..], [c]), seps);
      assert [ps[0]] + ps[1..] == ps;
    }
  }

  /** Splitting terminated lines gives the lines and one final empty piece. */
  lemma {:induction false} SplitTerminated(ls: seq<string>, c: char, seps: set<char>)
    requires c in seps
    requires forall k :: 0 <= k < |ls| ==> FreeOf(ls[k], seps)
    ensures SplitAll(Terminated(ls, [c]), seps) == ls + [""]
    decreases |ls|
  {
    if |ls| > 0 {
      SplitAllFree(ls[0], seps);
      SplitTerminated(ls[1..], c, seps);
      SplitAllAppend(ls[0], c, Terminated(ls[1..], [c]), seps);
      assert [ls[0]] + (ls[1..] + [""]) == ls + [""];
    }
  }

  /** Joining pieces free of some characters, with a separator free of them, keeps them out. */
  lemma {:induction false} JoinFreeOf(ps: seq<string>, sep: string, cs: set<char>)
    requires FreeOf(sep, cs) && forall k :: 0 <= k < |ps| ==> FreeOf(ps[k], cs)
    ensures FreeOf(Join(ps, sep), cs)
    decreases |ps|
  {
    if |ps| > 1 {
      JoinFreeOf(ps[1..], sep, cs);
    }
  }

  /** `ps` without its trailing empty strings. */
  function DropTrailingEmpty(ps: seq<string>): (r: seq<string>)
    ensures |r| <= |ps| && r == ps[..|r|]
    ensures |r| > 0 ==> r[|r| - 1] != ""
    ensures forall k :: |r| <= k < |ps| ==> ps[k] == ""
  {
    if |ps| == 0 then []
    else if ps[|ps| - 1] == "" then DropTrailingEmpty(ps[..|ps| - 1])
    else ps
  }

  /**
   * Java's `s.split(p)` for a pattern matching one character of `seps`: the
   * whole string when nothing matches, otherwise the pieces with trailing
   * empty ones removed.
   */
  function JavaSplit(s: string, seps: set<char>): (r: seq<string>)
    ensures FreeOf(s, seps) ==> r == [s]
    ensures !FreeOf(s, seps) ==> r == DropTrailingEmpty(SplitAll(s, seps))
  {
    if FreeOf(s, seps) then [s] else DropTrailingEmpty(SplitAll(s, seps))
  }

  /** Joining non-empty separator-free pieces with a separator, then splitting in Java's way, gives the pieces back. */
  lemma JavaSplitJoin(ps: seq<string>, c: char, seps: set<char>)
    requires |ps| >= 1 && c in seps
    requires forall k :: 0 <= k < |ps| ==> FreeOf(ps[k], seps) && ps[k] != ""
    ensures JavaSplit(Join(ps, [c]), seps) == ps
  {
    SplitJoin(ps, c, seps);
    if FreeOf(Join(ps, [c]), seps) {
      SplitAllFree(Join(ps, [c]), seps);
    }
  }

  /**
   * `BufferedReader.lines()` with '\n' as the line terminator: the pieces
   * between terminators, where a final terminator does not start another line.
   */
  function Lines(s: string): (r: seq<string>)
    ensures forall k :: 0 <= k < |r| ==> FreeOf(r[k], {'\n'})
    ensures s == "" ==> r == []
  {
    if s == "" then []
    else
      var p := SplitAll(s, {'\n'});
      if p[|p| - 1] == "" then p[..|p| - 1] else p
  }

  /** Reading back lines written with a terminator after each gives the lines. */
  lemma LinesTerminated(ls: seq<string>)
    requires forall k :: 0 <= k < |ls| ==> FreeOf(ls[k], {'\n'})
    ensures Lines(Terminated(ls, "\n")) == ls
  {
    SplitTerminated(ls, '\n', {'\n'});
    if |ls| == 0 {
      assert Terminated(ls, "\n") == "";
    } else {
      assert Terminated(ls, "\n") != "" by {
        assert |Terminated(ls, "\n")| >= 1;
      }
      assert (ls + [""])[..|ls|] == ls;
    }
  }

  /** Appending one more terminated line. */
  lemma {:induction false} TerminatedSnoc(ls: seq<string>, i: nat, t: string)
    requires i < |ls|
    ensures Terminated(ls[..i + 1], t) == Terminated(ls[..i], t) + ls[i] + t
    decreases i
  {
    if i > 0 {
      assert ls[..i + 1][1..] == ls[1..][..i];
      assert ls[..i][1..] == ls[1..][..i - 1];
      TerminatedSnoc(ls[1..], i - 1, t);
    }
  }

  /** Every piece but the last followed by the separator, then the last: the joined string. */
  lemma {:induction false} TerminatedThenLast(ps: seq<string>, sep: string)
    requires |ps| >= 1
    ensures Terminated(ps[..|ps| - 1], sep) + ps[|ps| - 1] == Join(ps, sep)
    decreases |ps|
  {
    if |ps| > 1 {
      TerminatedThenLast(ps[1..], sep);
      assert ps[..|ps| - 1][1..] == ps[1..][..|ps| - 2];
    }
  }

  /** The values of the pieces `dec` accepts, in order; rejected pieces are skipped. */
  function ParsedOnly<T>(ps: seq<string>, dec: string -> Option<T>): (r: seq<T>)
    ensures |r| <= |ps|
  {
    if |ps| == 0 then []
    else ParsedOnly(ps[..|ps| - 1], dec) + (if dec(ps[|ps| - 1]).Some? then [dec(ps[|ps| - 1]).value] else [])
  }

  lemma {:induction false} ParsedOnlyAppend<T>(a: seq<string>, b: seq<string>, dec: string -> Option<T>)
    ensures ParsedOnly(a + b, dec) == ParsedOnly(a, dec) + ParsedOnly(b, dec)
    decreases |b|
  {
    if |b| == 0 {
      assert a + b == a;
    } else {
      assert (a + b)[..|a + b| - 1] == a + b[..|b| - 1];
      assert (a + b)[|a + b| - 1] == b[|b| - 1];
      ParsedOnlyAppend(a, b[..|b| - 1], dec);
    }
  }

  /** Trailing empty pieces contribute nothing when the empty string does not parse. */
  lemma {:induction false} ParsedOnlyDropTrailing<T>(ps: seq<string>, dec: string -> Option<T>)
    requires dec("").None?
    ensures ParsedOnly(DropTrailingEmpty(ps), dec) == ParsedOnly(ps, dec)
    decreases |ps|
  {
    if |ps| > 0 && ps[|ps| - 1] == "" {
      ParsedOnlyDropTrailing(ps[..|ps| - 1], dec);
    }
  }

  /** The values of all pieces, or `None` as soon as one piece does not parse. */
  function ParseEach<T>(ps: seq<string>, dec: string -> Option<T>): (r: Option<seq<T>>)
    ensures r.Some? <==> forall k :: 0 <= k < |ps| ==> dec(ps[k]).Some?
    ensures r.Some? ==> |r.value| == |ps| && forall k :: 0 <= k < |ps| ==> r.value[k] == dec(ps[k]).value
  {
    if |ps| == 0 then Some([])
    else if dec(ps[0]).None? then None
    else
      var rest := ParseEach(ps[1..], dec);
      if rest.None? then
        assert exists k :: 0 <= k < |ps| && dec(ps[k]).None? by {
          var k :| 0 <= k < |ps| - 1 && dec(ps[1..][k]).None?;
          assert ps[1..][k] == ps[k + 1];
        }
        None
      else Some([dec(ps[0]).value] + rest.value)
  }

  predicate IsDigit(c: char) { '0' <= c <= '9' }

  predicate AllDigits(s: string)
  {
    forall k :: 0 <= k < |s| ==> IsDigit(s[k])
  }

  /** The decimal value of a digit string, most significant digit first. */
  function DigitsValue(s: string): (r: nat)
    requires AllDigits(s)
  {
    if |s| == 0 then 0
    else DigitsValue(s[..|s| - 1]) * 10 + (s[|s| - 1] as int - '0' as int)
  }

  function DigitChar(d: nat): (c: char)
    requires d < 10
    ensures IsDigit(c) && c as int - '0' as int == d
  {
    ('0' as int + d) as char
  }

  /** The shortest decimal digit string of `n`. */
  function NatToDigits(n: nat): (r: string)
    ensures |r| >= 1 && AllDigits(r)
    ensures DigitsValue(r) == n
    decreases n
  {
    if n < 10 then [DigitChar(n)]
    else
      var p := NatToDigits(n / 10);
      var r := p + [DigitChar(n % 10)];
      assert r[..|r| - 1] == p;
      r
  }

  /** `Integer.toString`: a minus sign for negative values, then the digits. */
  function IntToString(n: int): (r: string)
    ensures |r| >= 1
    ensures FreeOf(r, Whitespace)
  {
    var r := if n < 0 then "-" + NatToDigits(-n) else NatToDigits(n);
    assert forall k :: 0 <= k < |r| ==> r[k] == '-' || IsDigit(r[k]);
    r
  }

  /**
   * `Integer.parseInt` over ASCII digits: an optional '+' or '-', at least
   * one digit, and a value within 32 bits; anything else throws, here `None`.
   */
  function ParseInt(s: string): (r: Option<int>)
    ensures r.Some? ==> MinInt32 <= r.value <= MaxInt32
    ensures |s| == 0 ==> r == None
  {
    if |s| == 0 then None
    else
      var body := if s[0] == '-' || s[0] == '+' then s[1..] else s;
      if |body| == 0 || !AllDigits(body) then None
      else
        var v: int := if s[0] == '-' then 0 - DigitsValue(body) as int else DigitsValue(body);
        if MinInt32 <= v <= MaxInt32 then Some(v) else None
  }

  /** Printing a 32-bit integer and parsing it back gives the integer. */
  lemma ParseIntToString(n: int)
    requires MinInt32 <= n <= MaxInt32
    ensures ParseInt(IntToString(n)) == Some(n)
  {
    var s := IntToString(n);
    if n < 0 {
      assert s[1..] == NatToDigits(-n);
    } else {
      assert s[0] != '-' && s[0] != '+' by {
        assert IsDigit(s[0]);
      }
    }
  }
}
