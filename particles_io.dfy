/**
 * `ParticlesIO`: the tab-separated particle file. Positions are saved
 * rescaled from [-1, 1) to [0, 1), velocities halved; loading undoes both
 * and sets every `z` to 0. `enc` stands for `Double.toString`, `dec` for
 * `Double.parseDouble`; types go through `Integer.toString`/`parseInt`.
 */
module ParticleFiles {
  import opened Wrappers
  import opened Vectors
  import opened Text
  import opened Particles

  const Header: string := "x\ty\tvx\tvy\ttype"

  /** The five fields saved for one particle. */
  function Fields(st: ParticleState, enc: real -> string): (r: seq<string>)
    ensures |r| == 5
  {
    [enc(0.5 * st.position.x + 0.5), enc(0.5 * st.position.y + 0.5),
     enc(0.5 * st.velocity.x), enc(0.5 * st.velocity.y), IntToString(st.kind)]
  }

  function ParticleLine(st: ParticleState, enc: real -> string): string
  {
    Join(Fields(st, enc), "\t")
  }

  /** The data lines, one per particle in order. */
  function ParticleLines(sts: seq<ParticleState>, enc: real -> string): (r: seq<string>)
    ensures |r| == |sts|
  {
    seq(|sts|, i requires 0 <= i < |sts| => ParticleLine(sts[i], enc))
  }

  /** The whole saved text: the header line, then one line per particle. */
  function ParticlesText(sts: seq<ParticleState>, enc: real -> string): string
  {
    Terminated([Header] + ParticleLines(sts, enc), "\n")
  }

  /** `saveParticles`: the header, then each particle's line, in array order. */
  method SaveParticles(ps: array<Particle>, enc: real -> string) returns (s: string)
    ensures s == ParticlesText(States(ps[..]), enc)
  {
    ghost var sts := States(ps[..]);
    ghost var lines := [Header] + ParticleLines(sts, enc);
    assert lines[..1] == [Header];
    s := Header + "\n";
    for i := 0 to ps.Length
      invariant s == Terminated(lines[..i + 1], "\n")
    {
      var p := ps[i];
      // the five fields of `p`, tab-separated
      var line := Join(Fields(p.State(), enc), "\t");
      SavedPrefix(sts, enc, i, p.State());
      s := s + line + "\n";
    }
    assert lines[..ps.Length + 1] == lines;
  }

  /** The saved text up to particle i is the text up to particle i - 1, then the line of particle i. */
  lemma SavedPrefix(sts: seq<ParticleState>, enc: real -> string, i: nat, st: ParticleState)
    requires i < |sts| && sts[i] == st
    ensures var lines := [Header] + ParticleLines(sts, enc);
      Terminated(lines[..i + 2], "\n") == Terminated(lines[..i + 1], "\n") + Join(Fields(st, enc), "\t") + "\n"
  {
    var lines := [Header] + ParticleLines(sts, enc);
    TerminatedSnoc(lines, i + 1, "\n");
  }

  /**
   * One data line read back: at least five tab fields, the first four
   * parsing as numbers and the fifth as an int; `None` where Java throws.
   */
  function ParseParticleLine(line: string, dec: string -> Option<real>): (r: Option<ParticleState>)
    ensures r.Some? ==> r.value.position.z == 0.0 && r.value.velocity.z == 0.0
  {
    var parts := JavaSplit(line, {'\t'});
    if |parts| < 5 then None
    else
      match (dec(parts[0]), dec(parts[1]), dec(parts[2]), dec(parts[3]), ParseInt(parts[4]))
      case (Some(x), Some(y), Some(vx), Some(vy), Some(t)) =>
        Some(ParticleState(Vec3(2.0 * x - 1.0, 2.0 * y - 1.0, 0.0), Vec3(2.0 * vx, 2.0 * vy, 0.0), t))
      case _ => None
  }

  /** The stream of `loadParticles`: the first line skipped, every other line one particle. */
  function ParseParticles(text: string, dec: string -> Option<real>): (r: Option<seq<ParticleState>>)
    ensures r.Some? ==> |r.value| == if |Lines(text)| == 0 then 0 else |Lines(text)| - 1
  {
    var ls := Lines(text);
    if |ls| == 0 then Some([])
    else ParseDataLines(ls[1..], dec)
  }

  /** Every data line read as a particle, or `None` at the first that cannot be. */
  function ParseDataLines(ls: seq<string>, dec: string -> Option<real>): Option<seq<ParticleState>>
  {
    ParseEach(ls, line => ParseParticleLine(line, dec))
  }

  /**
   * `loadParticles`: new particles holding the parsed states; null where the
   * Java stream throws, on a line with too few fields or an unparsable one.
   */
  method LoadParticles(text: string, dec: string -> Option<real>) returns (ps: array?<Particle>)
    ensures ps == null <==> ParseParticles(text, dec).None?
    ensures ps != null ==> fresh(ps) && Distinct(ps[..])
    ensures ps != null ==> forall i :: 0 <= i < ps.Length ==> fresh(ps[i])
    ensures ps != null ==> States(ps[..]) == ParseParticles(text, dec).value
  {
    var parsed := ParseParticles(text, dec);
    if parsed.None? {
      return null;
    }
    ps := MakeParticles(parsed.value);
  }

  /** The `toArray` of the stream: one new particle per state. */
  method MakeParticles(sts: seq<ParticleState>) returns (ps: array<Particle>)
    ensures fresh(ps) && ps.Length == |sts|
    ensures forall i :: 0 <= i < ps.Length ==> fresh(ps[i])
    ensures Distinct(ps[..])
    ensures States(ps[..]) == sts
  {
    var first := new Particle();
    ps := new Particle[|sts|](_ => first);
    for i := 0 to |sts|
      invariant forall a :: 0 <= a < i ==> fresh(ps[a]) && ps[a].State() == sts[a]
      invariant forall a, b :: 0 <= a < b < i ==> ps[a] != ps[b]
    {
      var p := new Particle();
      p.position, p.velocity, p.kind := sts[i].position, sts[i].velocity, sts[i].kind;
      ps[i] := p;
    }
  }

  /** What a particle reads back as: the same planar position, velocity and type, with `z` = 0. */
  function Flattened(st: ParticleState): ParticleState
  {
    ParticleState(Vec3(st.position.x, st.position.y, 0.0), Vec3(st.velocity.x, st.velocity.y, 0.0), st.kind)
  }

  /** The number printer writes `v` as a non-empty token free of tabs and line feeds that parses back exactly. */
  predicate ExactToken(v: real, enc: real -> string, dec: string -> Option<real>)
  {
    enc(v) != "" && FreeOf(enc(v), {'\t', '\n'}) && dec(enc(v)) == Some(v)
  }

  /** The four saved numbers of a particle are printed exactly. */
  predicate ExactFields(st: ParticleState, enc: real -> string, dec: string -> Option<real>)
  {
    ExactToken(0.5 * st.position.x + 0.5, enc, dec) && ExactToken(0.5 * st.position.y + 0.5, enc, dec)
    && ExactToken(0.5 * st.velocity.x, enc, dec) && ExactToken(0.5 * st.velocity.y, enc, dec)
  }

  /** One saved line reads back as the flattened particle. */
  lemma LineRoundTrip(st: ParticleState, enc: real -> string, dec: string -> Option<real>)
    requires ExactFields(st, enc, dec)
    requires MinInt32 <= st.kind <= MaxInt32
    ensures FreeOf(ParticleLine(st, enc), {'\n'})
    ensures ParseParticleLine(ParticleLine(st, enc), dec) == Some(Flattened(st))
  {
    LineSplit(st, enc, dec);
    ParseIntToString(st.kind);
  }

  /** A saved line holds no line feed and splits at its tabs into its five fields. */
  lemma LineSplit(st: ParticleState, enc: real -> string, dec: string -> Option<real>)
    requires ExactFields(st, enc, dec)
    ensures FreeOf(ParticleLine(st, enc), {'\n'})
    ensures JavaSplit(ParticleLine(st, enc), {'\t'}) == Fields(st, enc)
  {
    var fs := Fields(st, enc);
    FieldsSplit(st, enc, dec);
    JoinFreeOf(fs, "\t", {'\n'});
    JavaSplitJoin(fs, '\t', {'\t'});
  }

  /** The saved fields are non-empty and hold neither tabs nor line feeds. */
  lemma FieldsSplit(st: ParticleState, enc: real -> string, dec: string -> Option<real>)
    requires ExactFields(st, enc, dec)
    ensures forall k :: 0 <= k < 5 ==> Fields(st, enc)[k] != "" && FreeOf(Fields(st, enc)[k], {'\t', '\n'})
  {
    var s := IntToString(st.kind);
    assert FreeOf(s, {'\t', '\n'}) by {
      assert forall k :: 0 <= k < |s| ==> s[k] !in Whitespace;
    }
  }

  /**
   * `loadParticles(saveParticles(ps))`: as many particles, in order, with
   * their planar positions, velocities and types; `z` components become 0.
   */
  lemma SaveLoadRoundTrip(sts: seq<ParticleState>, enc: real -> string, dec: string -> Option<real>)
    requires forall i :: 0 <= i < |sts| ==> ExactFields(sts[i], enc, dec) && MinInt32 <= sts[i].kind <= MaxInt32
    ensures ParseParticles(ParticlesText(sts, enc), dec) == Some(seq(|sts|, i requires 0 <= i < |sts| => Flattened(sts[i])))
  {
    var body := ParticleLines(sts, enc);
    forall i | 0 <= i < |sts|
      ensures FreeOf(body[i], {'\n'}) && ParseParticleLine(body[i], dec) == Some(Flattened(sts[i]))
    {
      LineRoundTrip(sts[i], enc, dec);
    }
    TextLines(sts, enc);
    DataLinesParsed(sts, enc, dec);
  }

  /** With line-feed-free data lines, the saved text splits into the header and the data lines. */
  lemma TextLines(sts: seq<ParticleState>, enc: real -> string)
    requires forall i :: 0 <= i < |sts| ==> FreeOf(ParticleLines(sts, enc)[i], {'\n'})
    ensures |Lines(ParticlesText(sts, enc))| >= 1
    ensures Lines(ParticlesText(sts, enc))[1..] == ParticleLines(sts, enc)
  {
    var lines := [Header] + ParticleLines(sts, enc);
    assert forall k :: 0 <= k < |lines| ==> FreeOf(lines[k], {'\n'});
    LinesTerminated(lines);
    assert lines[1..] == ParticleLines(sts, enc);
  }

  /** Data lines that each read back as the flattened particle read back as all of them. */
  lemma DataLinesParsed(sts: seq<ParticleState>, enc: real -> string, dec: string -> Option<real>)
    requires forall i :: 0 <= i < |sts| ==> ParseParticleLine(ParticleLines(sts, enc)[i], dec) == Some(Flattened(sts[i]))
    ensures ParseDataLines(ParticleLines(sts, enc), dec) == Some(seq(|sts|, i requires 0 <= i < |sts| => Flattened(sts[i])))
  {
    var r := ParseDataLines(ParticleLines(sts, enc), dec);
    assert r.Some?;
    assert r.value == seq(|sts|, i requires 0 <= i < |sts| => Flattened(sts[i]));
  }
}
