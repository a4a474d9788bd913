/**
 * Colour palettes: `InterpolatingPalette.getColor`, which spreads the types
 * evenly over a list of colours and interpolates between neighbours, and the
 * palette-file parsing and ordering of `PalettesProvider`.
 */
module Palettes {
  import opened Wrappers
  import opened MathUtils
  import opened Text
  import opened Selections

  /** An RGBA colour with float components (exact reals here). */
  datatype Color = Color(r: real, g: real, b: real, a: real)

  /** `interpolate`: the componentwise lerp. */
  function Interpolate(a: Color, b: Color, f: real): (c: Color)
    ensures f == 0.0 ==> c == a
    ensures f == 1.0 ==> c == b
  {
    Color(Lerp(a.r, b.r, f), Lerp(a.g, b.g, f), Lerp(a.b, b.b, f), Lerp(a.a, b.a, f))
  }

  predicate Between(x: real, p: real, q: real)
  {
    (p <= x <= q) || (q <= x <= p)
  }

  /** Every component of `c` lies between those of `a` and `b`. */
  predicate ColorBetween(c: Color, a: Color, b: Color)
  {
    Between(c.r, a.r, b.r) && Between(c.g, a.g, b.g) && Between(c.b, a.b, b.b) && Between(c.a, a.a, b.a)
  }

  /** An interpolated colour lies between its two ends. */
  lemma InterpolateBetween(a: Color, b: Color, f: real)
    requires 0.0 <= f <= 1.0
    ensures ColorBetween(Interpolate(a, b, f), a, b)
  {
    LerpBetween(a.r, b.r, f);
    LerpBetween(a.g, b.g, f);
    LerpBetween(a.b, b.b, f);
    LerpBetween(a.a, b.a, f);
  }

  /** `nTypes` below 1 counts as 1. */
  function EffectiveTypes(nTypes: int): (n: int)
    ensures n >= 1 && (nTypes >= 1 ==> n == nTypes)
  {
    if nTypes < 1 then 1 else nTypes
  }

  /** The type clamped into [0, n - 1]. */
  function ClampedType(kind: int, n: int): (t: int)
    requires n >= 1
    ensures 0 <= t < n && (0 <= kind < n ==> t == kind)
    ensures kind <= 0 ==> t == 0
  {
    if kind < 0 then 0 else if kind >= n then n - 1 else kind
  }

  /** `exactIndex`: type t's place on a scale where the n types span the `len` colours. */
  function ExactIndex(len: nat, t: int, n: int): (x: real)
    requires n >= 1 && 0 <= t < n
    ensures 0.0 <= x && x * n as real == (len * t) as real
    ensures len >= 1 ==> x < len as real
    ensures t == 0 ==> x == 0.0
  {
    var x := (len * t) as real / n as real;
    if len >= 1 then
      ProductBelow(len, t, n);
      ScaleStrict(len as real, x, n as real);
      x
    else x
  }

  /** With at least one colour, a type below n scales to below `len * n`. */
  lemma ProductBelow(len: nat, t: int, n: int)
    requires len >= 1 && 0 <= t < n
    ensures (len * t) as real < len as real * n as real
  {
    MulAtLeast(n - t, len);
    assert len * n - len * t == (n - t) * len;
    assert (len * n) as real == len as real * n as real;
  }

  /**
   * The inputs on which the source reads past the colours: an empty
   * palette, or a scaled type that lies above `len - 1`, where the upper
   * neighbour index `ceil(exactIndex)` is `len`.
   */
  predicate OutOfPalette(len: nat, kind: int, nTypes: int)
  {
    var n := EffectiveTypes(nTypes);
    len == 0 || len * ClampedType(kind, n) > (len - 1) * n
  }

  /** Above `len - 1` on the scale exactly when the product test holds. */
  lemma AboveLastMeans(len: nat, t: int, n: int)
    requires n >= 1 && 0 <= t < n
    ensures ExactIndex(len, t, n) > (len - 1) as real <==> len * t > (len - 1) * n
  {
    var x, m := ExactIndex(len, t, n), len - 1;
    ScaleStrict(x, m as real, n as real);
    CastProduct(m, n);
  }

  /** Products commute with the conversion to real. */
  lemma CastProduct(a: int, b: int)
    ensures (a * b) as real == a as real * b as real
  {
  }

  /**
   * `getColor` as written: `None` where it throws
   * ArrayIndexOutOfBoundsException; otherwise the colour at a whole index, or
   * the lerp between the colours at `floor` and `ceil` of the index.
   */
  function GetColorAsWritten(colors: seq<Color>, kind: int, nTypes: int): (r: Option<Color>)
    ensures r.None? <==> OutOfPalette(|colors|, kind, nTypes)
  {
    var n := EffectiveTypes(nTypes);
    var t := ClampedType(kind, n);
    var x := ExactIndex(|colors|, t, n);
    var lo, hi := x.Floor, Ceil(x);
    AboveLastMeans(|colors|, t, n);
    if lo == hi then
      if lo < |colors| then Some(colors[lo]) else None
    else if hi < |colors| then Some(Interpolate(colors[lo], colors[hi], x - lo as real))
    else None
  }

  /** The last type of a palette with fewer colours than types reads past the end. */
  lemma FewerColoursThanTypes(colors: seq<Color>, nTypes: int)
    requires 1 <= |colors| < nTypes
    ensures GetColorAsWritten(colors, nTypes - 1, nTypes) == None
  {
    var len := |colors|;
    assert len * (nTypes - 1) > (len - 1) * nTypes by {
      assert len * (nTypes - 1) == len * nTypes - len;
      assert (len - 1) * nTypes == len * nTypes - nTypes;
    }
  }

  /** Two colours and three types: type 2 sits at 4/3, and its upper neighbour is index 2. */
  lemma TwoColoursThreeTypes(c0: Color, c1: Color)
    ensures GetColorAsWritten([c0, c1], 2, 3) == None
  {
    FewerColoursThanTypes([c0, c1], 3);
  }

  /**
   * `getColor` with the upper neighbour kept inside the palette: past the
   * last colour the last colour is used.
   */
  function GetColor(colors: seq<Color>, kind: int, nTypes: int): (c: Color)
    requires |colors| >= 1
  {
    var n := EffectiveTypes(nTypes);
    var t := ClampedType(kind, n);
    var x := ExactIndex(|colors|, t, n);
    var lo := x.Floor;
    var hi := if Ceil(x) < |colors| then Ceil(x) else |colors| - 1;
    if lo == hi then colors[lo] else Interpolate(colors[lo], colors[hi], x - lo as real)
  }

  /** Wherever the source's version returns a colour, the corrected one returns the same colour. */
  lemma GetColorAgrees(colors: seq<Color>, kind: int, nTypes: int)
    requires GetColorAsWritten(colors, kind, nTypes).Some?
    ensures |colors| >= 1 && GetColor(colors, kind, nTypes) == GetColorAsWritten(colors, kind, nTypes).value
  {
  }

  /**
   * What the corrected `getColor` returns: type 0 (and any type below it)
   * gets the first colour; a whole index gives that colour unchanged;
   * otherwise the colour lies between the two neighbouring colours, as their
   * lerp with a fraction in (0, 1), or the last colour past the end.
   */
  lemma GetColorShape(colors: seq<Color>, kind: int, nTypes: int)
    requires |colors| >= 1
    ensures kind <= 0 ==> GetColor(colors, kind, nTypes) == colors[0]
    ensures nTypes <= 1 ==> GetColor(colors, kind, nTypes) == colors[0]
    ensures var n := EffectiveTypes(nTypes);
      var x := ExactIndex(|colors|, ClampedType(kind, n), n);
      0 <= x.Floor < |colors|
      && (x == x.Floor as real ==> GetColor(colors, kind, nTypes) == colors[x.Floor])
      && (x != x.Floor as real && x.Floor + 1 < |colors| ==>
            0.0 < x - x.Floor as real < 1.0
            && GetColor(colors, kind, nTypes) == Interpolate(colors[x.Floor], colors[x.Floor + 1], x - x.Floor as real)
            && ColorBetween(GetColor(colors, kind, nTypes), colors[x.Floor], colors[x.Floor + 1]))
      && (x.Floor + 1 == |colors| ==> GetColor(colors, kind, nTypes) == colors[|colors| - 1])
  {
    var n := EffectiveTypes(nTypes);
    var x := ExactIndex(|colors|, ClampedType(kind, n), n);
    var lo := x.Floor;
    if x != lo as real && lo + 1 < |colors| {
      assert Ceil(x) == lo + 1;
      InterpolateBetween(colors[lo], colors[lo + 1], x - lo as real);
    }
  }

  /** The colour of a palette line "r g b": the integers over 255, fully opaque. */
  function ColorOf(v: (int, int, int)): Color
  {
    Color(v.0 as real / 255.0, v.1 as real / 255.0, v.2 as real / 255.0, 1.0)
  }

  /**
   * `parseColor`: the line split on single spaces must give exactly three
   * pieces, each a Java int; then the colour is those over 255, opaque.
   */
  function ParseColor(s: string): (r: Option<Color>)
    ensures |JavaSplit(s, {' '})| != 3 ==> r == None
    ensures r.Some? <==> |JavaSplit(s, {' '})| == 3 && forall k :: 0 <= k < 3 ==> ParseInt(JavaSplit(s, {' '})[k]).Some?
    ensures r.Some? ==> r.value.a == 1.0
  {
    var elements := JavaSplit(s, {' '});
    if |elements| != 3 then None
    else
      var values := ParseEach(elements, ParseInt);
      if values.None? then None
      else Some(ColorOf((values.value[0], values.value[1], values.value[2])))
  }

  /** The line the palette format expects for a colour: three integers separated by single spaces. */
  function ColorLine(v: (int, int, int)): string
  {
    IntToString(v.0) + " " + IntToString(v.1) + " " + IntToString(v.2)
  }

  predicate Int32Triple(v: (int, int, int))
  {
    MinInt32 <= v.0 <= MaxInt32 && MinInt32 <= v.1 <= MaxInt32 && MinInt32 <= v.2 <= MaxInt32
  }

  /** A number printed with `Integer.toString` contains no space, line feed or carriage return. */
  lemma IntTextFree(n: int)
    ensures FreeOf(IntToString(n), {' ', '\n', '\r'}) && IntToString(n) != ""
  {
    var s := IntToString(n);
    forall k | 0 <= k < |s| ensures s[k] !in {' ', '\n', '\r'} {
      assert s[k] !in Whitespace;
    }
  }

  /** Three pieces joined with single spaces. */
  lemma JoinThree(a: string, b: string, c: string)
    ensures Join([a, b, c], " ") == a + " " + b + " " + c
  {
    var ps := [a, b, c];
    assert ps[1..] == [b, c] && ps[1..][1..] == [c];
    assert Join([b, c], " ") == b + " " + c;
    assert Join(ps, " ") == a + " " + (b + " " + c);
  }

  /** A well-formed colour line parses to its colour. */
  lemma ParseColorLine(v: (int, int, int))
    requires Int32Triple(v)
    ensures ParseColor(ColorLine(v)) == Some(ColorOf(v))
  {
    var ps := [IntToString(v.0), IntToString(v.1), IntToString(v.2)];
    IntTextFree(v.0);
    IntTextFree(v.1);
    IntTextFree(v.2);
    forall k | 0 <= k < 3 ensures FreeOf(ps[k], {' '}) && ps[k] != "" {
      assert FreeOf(ps[k], {' ', '\n', '\r'});
    }
    JoinThree(ps[0], ps[1], ps[2]);
    JavaSplitJoin(ps, ' ', {' '});
    ParseIntToString(v.0);
    ParseIntToString(v.1);
    ParseIntToString(v.2);
    var values := ParseEach(ps, ParseInt);
    assert values.Some? && values.value[0] == v.0 && values.value[1] == v.1 && values.value[2] == v.2;
  }

  /** Every piece but the last loses one trailing '\r': the '\r' of a "\r\n" separator. */
  function StripReturns(ps: seq<string>): (r: seq<string>)
    ensures |r| == |ps|
  {
    seq(|ps|, k requires 0 <= k < |ps| =>
      if k < |ps| - 1 && |ps[k]| > 0 && ps[k][|ps[k]| - 1] == '\r' then ps[k][..|ps[k]| - 1] else ps[k])
  }

  /**
   * `split("\\r?\\n")`: the whole content when it has no line feed, otherwise
   * the pieces between line feeds, each without the '\r' of a "\r\n", with
   * trailing empty pieces removed.
   */
  function PaletteLines(s: string): (r: seq<string>)
  {
    if FreeOf(s, {'\n'}) then [s] else DropTrailingEmpty(StripReturns(SplitAll(s, {'\n'})))
  }

  /** Every piece but the last followed by '\r'. */
  function WithReturns(ps: seq<string>): (r: seq<string>)
    ensures |r| == |ps|
  {
    seq(|ps|, k requires 0 <= k < |ps| => if k < |ps| - 1 then ps[k] + "\r" else ps[k])
  }

  /** Joining with "\r\n" is joining with "\n" after a '\r' on every piece but the last. */
  lemma {:induction false} JoinReturns(ps: seq<string>)
    ensures Join(ps, "\r\n") == Join(WithReturns(ps), "\n")
    decreases |ps|
  {
    if |ps| > 1 {
      JoinReturns(ps[1..]);
      assert WithReturns(ps)[1..] == WithReturns(ps[1..]);
      assert ps[0] + "\r\n" + Join(ps[1..], "\r\n") == (ps[0] + "\r") + "\n" + Join(ps[1..], "\r\n");
    }
  }

  /** Lines free of line breaks keep their text: no '\r' to strip, and the one added by `WithReturns` removed. */
  lemma StripReturnsBack(ls: seq<string>)
    requires forall k :: 0 <= k < |ls| ==> FreeOf(ls[k], {'\n', '\r'})
    ensures StripReturns(ls) == ls && StripReturns(WithReturns(ls)) == ls
  {
    forall k | 0 <= k < |ls| ensures StripReturns(ls)[k] == ls[k] && StripReturns(WithReturns(ls))[k] == ls[k] {
      if k < |ls| - 1 {
        var w := WithReturns(ls)[k];
        assert w[..|w| - 1] == ls[k];
        if |ls[k]| > 0 {
          assert ls[k][|ls[k]| - 1] !in {'\n', '\r'};
        }
      }
    }
  }

  /** Two or more pieces joined with "\n" split back into the pieces, each without a trailing '\r'. */
  lemma SplitPieces(ps: seq<string>, ls: seq<string>)
    requires |ps| >= 2 && StripReturns(ps) == ls && ls[|ls| - 1] != ""
    requires forall k :: 0 <= k < |ps| ==> FreeOf(ps[k], {'\n'})
    ensures PaletteLines(Join(ps, "\n")) == ls
  {
    var joined := Join(ps, "\n");
    assert joined[|ps[0]|] == '\n' by {
      assert joined == ps[0] + "\n" + Join(ps[1..], "\n");
    }
    SplitJoin(ps, '\n', {'\n'});
    assert |DropTrailingEmpty(ls)| == |ls|;
  }

  /**
   * Lines free of line breaks, the last one non-empty, joined with "\n" or
   * with "\r\n", split back into the same lines.
   */
  lemma PaletteLinesJoin(ls: seq<string>, sep: string)
    requires |ls| >= 1 && ls[|ls| - 1] != "" && (sep == "\n" || sep == "\r\n")
    requires forall k :: 0 <= k < |ls| ==> FreeOf(ls[k], {'\n', '\r'})
    ensures PaletteLines(Join(ls, sep)) == ls
  {
    if |ls| == 1 {
      assert Join(ls, sep) == ls[0];
      assert FreeOf(ls[0], {'\n'});
    } else {
      StripReturnsBack(ls);
      if sep == "\r\n" {
        JoinReturns(ls);
        LineFeedFree(WithReturns(ls), ls);
        SplitPieces(WithReturns(ls), ls);
      } else {
        LineFeedFree(ls, ls);
        SplitPieces(ls, ls);
      }
    }
  }

  /** Pieces that are lines free of line breaks, with or without an added '\r', hold no line feed. */
  lemma LineFeedFree(ps: seq<string>, ls: seq<string>)
    requires forall k :: 0 <= k < |ls| ==> FreeOf(ls[k], {'\n', '\r'})
    requires ps == ls || ps == WithReturns(ls)
    ensures forall k :: 0 <= k < |ps| ==> FreeOf(ps[k], {'\n'})
  {
    forall k | 0 <= k < |ps| ensures FreeOf(ps[k], {'\n'}) {
      assert FreeOf(ls[k], {'\n', '\r'});
    }
  }

  /** The colours of lines that all parse are those lines' values, in order. */
  lemma {:induction false} ParsedOnlyColors(vs: seq<(int, int, int)>)
    requires forall k :: 0 <= k < |vs| ==> Int32Triple(vs[k])
    ensures ParsedOnly(ColorLines(vs), ParseColor) == ColorsOf(vs)
    decreases |vs|
  {
    if |vs| > 0 {
      var m := |vs| - 1;
      assert ColorLines(vs)[..m] == ColorLines(vs[..m]);
      assert ColorsOf(vs) == ColorsOf(vs[..m]) + [ColorOf(vs[m])];
      ParsedOnlyColors(vs[..m]);
      ParseColorLine(vs[m]);
    }
  }

  function ColorLines(vs: seq<(int, int, int)>): (r: seq<string>)
    ensures |r| == |vs|
  {
    seq(|vs|, k requires 0 <= k < |vs| => ColorLine(vs[k]))
  }

  function ColorsOf(vs: seq<(int, int, int)>): (r: seq<Color>)
    ensures |r| == |vs|
  {
    seq(|vs|, k requires 0 <= k < |vs| => ColorOf(vs[k]))
  }

  /** The palette parsed from content: the colours of the lines that parse, if there is one. */
  function PaletteOf(content: string): (r: Option<seq<Color>>)
    ensures r.Some? ==> |r.value| >= 1
  {
    var colors := ParsedOnly(PaletteLines(content), ParseColor);
    if |colors| > 0 then Some(colors) else None
  }

  /**
   * `parsePalette`: every line is tried as a colour, the valid ones are kept
   * in file order, and an empty result means no palette.
   */
  method ParsePalette(content: string) returns (r: Option<seq<Color>>)
    ensures r == PaletteOf(content)
  {
    var lines := PaletteLines(content);
    var list: seq<Color> := [];
    for i := 0 to |lines|
      invariant list == ParsedOnly(lines[..i], ParseColor)
    {
      var c := ParseColor(lines[i]);
      assert lines[..i + 1][..i] == lines[..i];
      if c.Some? {
        list := list + [c.value];
      }
    }
    assert lines[..|lines|] == lines;
    if |list| > 0 {
      r := Some(list);
    } else {
      r := None;
    }
  }

  /** A colour line holds no line break. */
  lemma ColorLineFree(v: (int, int, int))
    ensures FreeOf(ColorLine(v), {'\n', '\r'}) && ColorLine(v) != ""
  {
    IntTextFree(v.0);
    IntTextFree(v.1);
    IntTextFree(v.2);
  }

  /** A palette file written as colour lines, with either line ending, parses to its colours. */
  lemma PaletteRoundTrip(vs: seq<(int, int, int)>, sep: string)
    requires |vs| >= 1 && (sep == "\n" || sep == "\r\n")
    requires forall k :: 0 <= k < |vs| ==> Int32Triple(vs[k])
    ensures PaletteOf(Join(ColorLines(vs), sep)) == Some(ColorsOf(vs))
  {
    var ls := ColorLines(vs);
    forall k | 0 <= k < |ls| ensures FreeOf(ls[k], {'\n', '\r'}) {
      ColorLineFree(vs[k]);
    }
    ColorLineFree(vs[|vs| - 1]);
    PaletteLinesJoin(ls, sep);
    ParsedOnlyColors(vs);
  }

  /** The palettes the provider offers. */
  datatype Palette = SimpleRainbow | Interpolating(colors: seq<Color>)

  /** A file of the palette folder: its name, and its content or `None` when reading it failed. */
  datatype PaletteFile = PaletteFile(name: string, content: Option<string>)

  /** The palette of one file, named after it: `None` when the file cannot be read or holds no colour. */
  function PaletteItem(f: PaletteFile): (r: Option<Item<Palette>>)
    ensures r.Some? ==> (r.value.name == f.name && r.value.description == ""
      && r.value.obj.Interpolating? && |r.value.obj.colors| >= 1)
    ensures r.Some? <==> f.content.Some? && PaletteOf(f.content.value).Some?
  {
    if f.content.Some? && PaletteOf(f.content.value).Some?
    then Some(Item(f.name, "", Interpolating(PaletteOf(f.content.value).value)))
    else None
  }

  /** The values present in `os`, in order. */
  function Present<T>(os: seq<Option<T>>): (r: seq<T>)
    ensures |r| <= |os|
  {
    if |os| == 0 then []
    else Present(os[..|os| - 1]) + (if os[|os| - 1].Some? then [os[|os| - 1].value] else [])
  }

  /** When every value is present, `Present` keeps them all, in place. */
  lemma {:induction false} PresentAll<T>(os: seq<Option<T>>)
    requires forall k :: 0 <= k < |os| ==> os[k].Some?
    ensures |Present(os)| == |os|
    ensures forall k :: 0 <= k < |os| ==> Present(os)[k] == os[k].value
    decreases |os|
  {
    if |os| > 0 {
      var m := |os| - 1;
      PresentAll(os[..m]);
      assert Present(os) == Present(os[..m]) + [os[m].value];
    }
  }

  /** The palette of every file, in order. */
  function PaletteItems(files: seq<PaletteFile>): (r: seq<Option<Item<Palette>>>)
    ensures |r| == |files|
  {
    seq(|files|, k requires 0 <= k < |files| => PaletteItem(files[k]))
  }

  /** The palettes loaded from `files` in order: readable files whose content holds a colour. */
  function Loaded(files: seq<PaletteFile>): seq<Item<Palette>>
  {
    Present(PaletteItems(files))
  }

  /** Every present palette is an interpolating one with at least one colour, if every given one is. */
  lemma {:induction false} PresentColors(os: seq<Option<Item<Palette>>>)
    requires forall k :: 0 <= k < |os| ==> os[k].Some? ==> os[k].value.obj.Interpolating? && |os[k].value.obj.colors| >= 1
    ensures forall k :: 0 <= k < |Present(os)| ==> Present(os)[k].obj.Interpolating? && |Present(os)[k].obj.colors| >= 1
    decreases |os|
  {
    if |os| > 0 {
      var m := |os| - 1;
      PresentColors(os[..m]);
    }
  }

  /** Every loaded palette is an interpolating one with at least one colour. */
  lemma LoadedColors(files: seq<PaletteFile>)
    ensures forall k :: 0 <= k < |Loaded(files)| ==> Loaded(files)[k].obj.Interpolating? && |Loaded(files)[k].obj.colors| >= 1
  {
    PresentColors(PaletteItems(files));
  }

  /** When every file reads and holds a colour, there is one palette per file, named after it, in order. */
  lemma LoadedAll(files: seq<PaletteFile>)
    requires forall k :: 0 <= k < |files| ==> PaletteItem(files[k]).Some?
    ensures |Loaded(files)| == |files|
    ensures forall k :: 0 <= k < |files| ==> Loaded(files)[k].name == files[k].name
  {
    PresentAll(PaletteItems(files));
  }

  /**
   * `loadPalettesFromFiles` over the listing in sorted order: each file is
   * read and parsed; unreadable files and files without a colour are skipped.
   */
  method LoadPalettesFromFiles(files: seq<PaletteFile>) returns (palettes: seq<Item<Palette>>)
    ensures palettes == Loaded(files)
  {
    ghost var items := PaletteItems(files);
    palettes := [];
    for i := 0 to |files|
      invariant palettes == Present(items[..i])
    {
      assert items[..i + 1][..i] == items[..i];
      var f := files[i];
      if f.content.Some? {
        var palette := ParsePalette(f.content.value);
        if palette.Some? {
          palettes := palettes + [Item(f.name, "", Interpolating(palette.value))];
        }
      }
    }
    assert items[..|files|] == items;
  }

  /**
   * `create`: "Digital Rainbow" first, then the palettes of the folder; a
   * failed listing (`None`) leaves only the first.
   */
  method Create(listing: Option<seq<PaletteFile>>) returns (palettes: seq<Item<Palette>>)
    ensures |palettes| >= 1 && palettes[0] == Item("Digital Rainbow", "", SimpleRainbow)
    ensures listing.None? ==> palettes == [Item("Digital Rainbow", "", SimpleRainbow)]
    ensures listing.Some? ==> palettes[1..] == Loaded(listing.value)
  {
    palettes := [Item("Digital Rainbow", "", SimpleRainbow)];
    if listing.Some? {
      var loaded := LoadPalettesFromFiles(listing.value);
      palettes := palettes + loaded;
    }
  }
}
