/**
 * `ShaderProvider.create`: the shader entries of "shaders.yaml", with missing
 * names and descriptions filled in, keeping only the entries whose shader
 * files are all listed. Reading the YAML and compiling the shaders are
 * outside this model: the entries are given, and `builds` says whether an
 * entry's shader program can be constructed.
 */
module Shaders {
  import opened Wrappers
  import opened Text
  import opened Selections

  datatype BlendMode = Normal | Add | Subtract | Screen

  /** One YAML entry; `None` is a Java null. */
  datatype ShaderConfig = ShaderConfig(
    name: Option<string>, description: Option<string>,
    vertex: string, geometry: string, fragment: string, blend: BlendMode)

  /** An entry that sets no field: the field initialisers, fragment file included. */
  const Defaults := ShaderConfig(Some(""), Some(""), "default.vert", "default.geom", "default.geom", Normal)

  const ConfigFile := "shaders.yaml"

  /** The shader program of a kept entry: paths under "shaders/" and a blend mode. */
  datatype ParticleShader = ParticleShader(vertex: string, geometry: string, fragment: string, blend: BlendMode)

  /** `files.remove(x)`: the first occurrence of `x` removed, if there is one. */
  function RemoveFirst(xs: seq<string>, x: string): (r: seq<string>)
    ensures x !in xs ==> r == xs
    ensures x in xs ==> multiset(r) == multiset(xs) - multiset{x}
    ensures forall y :: y != x ==> (y in r <==> y in xs)
  {
    if |xs| == 0 then []
    else
      assert xs == [xs[0]] + xs[1..];
      if xs[0] == x then xs[1..]
      else [xs[0]] + RemoveFirst(xs[1..], x)
  }

  predicate Nameless(c: ShaderConfig)
  {
    c.name.None? || c.name.value == ""
  }

  /** How many entries of `cs` have no name. */
  function NamelessCount(cs: seq<ShaderConfig>): (r: nat)
    ensures r <= |cs|
  {
    if |cs| == 0 then 0
    else NamelessCount(cs[..|cs| - 1]) + (if Nameless(cs[|cs| - 1]) then 1 else 0)
  }

  /** The name of the k-th nameless entry: "unnamed", then "unnamed 2", "unnamed 3", … */
  function UnnamedLabel(k: int): (r: string)
    ensures r != ""
  {
    if k == 1 then "unnamed" else "unnamed " + IntToString(k)
  }

  /** Different counters give different names. */
  lemma UnnamedLabelInjective(i: int, j: int)
    requires 1 <= i <= MaxInt32 && 1 <= j <= MaxInt32
    requires UnnamedLabel(i) == UnnamedLabel(j)
    ensures i == j
  {
    if i != 1 && j != 1 {
      var p := "unnamed ";
      assert (p + IntToString(i))[|p|..] == IntToString(i);
      assert (p + IntToString(j))[|p|..] == IntToString(j);
      ParseIntToString(i);
      ParseIntToString(j);
    }
  }

  /** Different counters give different names. */
  lemma LabelsDiffer(i: int, j: int)
    requires 1 <= i < j <= MaxInt32
    ensures UnnamedLabel(i) != UnnamedLabel(j)
  {
    if UnnamedLabel(i) == UnnamedLabel(j) {
      UnnamedLabelInjective(i, j);
    }
  }

  /** An entry with its name and description defaulted, `counter` being its number among the nameless. */
  function FillDefaults(c: ShaderConfig, counter: int): (r: ShaderConfig)
    ensures r.name.Some? && r.name.value != "" && r.description.Some?
    ensures Nameless(c) ==> r.name == Some(UnnamedLabel(counter))
    ensures !Nameless(c) ==> r.name == c.name
    ensures c.description.Some? ==> r.description == c.description
    ensures c.description.None? ==> r.description == Some("")
    ensures r.vertex == c.vertex && r.geometry == c.geometry && r.fragment == c.fragment && r.blend == c.blend
  {
    var named := if Nameless(c) then c.(name := Some(UnnamedLabel(counter))) else c;
    if named.description.None? then named.(description := Some("")) else named
  }

  /** Every entry with its defaults filled in, numbering the nameless ones in order. */
  function NameAll(cs: seq<ShaderConfig>): (r: seq<ShaderConfig>)
    ensures |r| == |cs|
  {
    seq(|cs|, k requires 0 <= k < |cs| => FillDefaults(cs[k], NamelessCount(cs[..k + 1])))
  }

  /** The naming loop: a counter of nameless entries seen so far, and each entry's defaults. */
  method NameEntries(configs: seq<ShaderConfig>) returns (named: seq<ShaderConfig>)
    ensures named == NameAll(configs)
  {
    ghost var spec := NameAll(configs);
    var unnamedCounter := 0;
    named := [];
    for i := 0 to |configs|
      invariant unnamedCounter == NamelessCount(configs[..i])
      invariant named == spec[..i]
    {
      NameAllAt(configs, i, unnamedCounter);
      var config := configs[i];
      if config.name.None? || config.name.value == "" {
        unnamedCounter := unnamedCounter + 1;
        config := config.(name := Some(UnnamedLabel(unnamedCounter)));
      }
      if config.description.None? {
        config := config.(description := Some(""));
      }
      named := named + [config];
    }
  }

  /** One step of the naming loop: the counter after entry i, and entry i with its defaults. */
  lemma NameAllAt(cs: seq<ShaderConfig>, i: nat, counter: nat)
    requires i < |cs| && counter == NamelessCount(cs[..i])
    ensures NamelessCount(cs[..i + 1]) == counter + (if Nameless(cs[i]) then 1 else 0)
    ensures NameAll(cs)[..i + 1] == NameAll(cs)[..i] + [FillDefaults(cs[i], NamelessCount(cs[..i + 1]))]
  {
    assert cs[..i + 1][..i] == cs[..i];
  }

  /** Earlier prefixes hold no more nameless entries, and strictly fewer when a later nameless entry is included. */
  lemma {:induction false} NamelessCountGrows(cs: seq<ShaderConfig>, i: nat, j: nat)
    requires i < j < |cs| && Nameless(cs[j])
    ensures NamelessCount(cs[..i + 1]) < NamelessCount(cs[..j + 1])
    decreases j
  {
    assert cs[..j + 1][..j] == cs[..j];
    if i < j - 1 {
      NamelessCountMono(cs, i + 1, j);
    }
  }

  lemma {:induction false} NamelessCountMono(cs: seq<ShaderConfig>, i: nat, j: nat)
    requires i <= j <= |cs|
    ensures NamelessCount(cs[..i]) <= NamelessCount(cs[..j])
    decreases j - i
  {
    if i < j {
      NamelessCountMono(cs, i, j - 1);
      assert cs[..j][..j - 1] == cs[..j - 1];
    }
  }

  /**
   * After naming, every entry has a non-empty name and a description, and
   * two different nameless entries never share a name.
   */
  lemma NamesFilled(cs: seq<ShaderConfig>, i: nat, j: nat)
    requires |cs| <= MaxInt32 && i < j < |cs| && Nameless(cs[i]) && Nameless(cs[j])
    ensures NameAll(cs)[i].name != NameAll(cs)[j].name
  {
    var ci, cj := NamelessCount(cs[..i + 1]), NamelessCount(cs[..j + 1]);
    NamelessCountGrows(cs, i, j);
    NamelessCountAt(cs, i);
    NamelessName(cs, i);
    NamelessName(cs, j);
    LabelsDiffer(ci, cj);
  }

  /** A nameless entry is named after its number among the nameless entries up to it. */
  lemma NamelessName(cs: seq<ShaderConfig>, k: nat)
    requires k < |cs| && Nameless(cs[k])
    ensures NamelessCount(cs[..k + 1]) <= k + 1
    ensures NameAll(cs)[k].name == Some(UnnamedLabel(NamelessCount(cs[..k + 1])))
  {
  }

  /** A nameless entry is counted in the prefix that ends with it. */
  lemma NamelessCountAt(cs: seq<ShaderConfig>, i: nat)
    requires i < |cs| && Nameless(cs[i])
    ensures NamelessCount(cs[..i + 1]) >= 1
  {
    assert cs[..i + 1][..i] == cs[..i];
  }

  /** All three shader files of the entry are in the listing. */
  predicate Usable(c: ShaderConfig, files: seq<string>)
  {
    c.vertex in files && c.geometry in files && c.fragment in files
  }

  /** An entry that sets nothing is usable exactly when "default.vert" and "default.geom" are listed. */
  lemma DefaultsUsable(files: seq<string>)
    ensures Usable(Defaults, files) <==> "default.vert" in files && "default.geom" in files
  {
  }

  /** The filter's loop over the entry's file names, stopping at the first one not listed. */
  method AllListed(names: seq<string>, files: seq<string>) returns (b: bool)
    ensures b <==> forall k :: 0 <= k < |names| ==> names[k] in files
  {
    for i := 0 to |names|
      invariant forall k :: 0 <= k < i ==> names[k] in files
    {
      if names[i] !in files {
        return false;
      }
    }
    return true;
  }

  /** The item for a kept entry. */
  function ShaderItem(c: ShaderConfig): Item<ParticleShader>
    requires c.name.Some? && c.description.Some?
  {
    Item(c.name.value, c.description.value,
      ParticleShader("shaders/" + c.vertex, "shaders/" + c.geometry, "shaders/" + c.fragment, c.blend))
  }

  /** The kept entries in order: usable, and the shader program constructs. */
  function Provided(named: seq<ShaderConfig>, files: seq<string>, builds: ShaderConfig -> bool): (r: seq<Item<ParticleShader>>)
    requires forall k :: 0 <= k < |named| ==> named[k].name.Some? && named[k].description.Some?
    ensures |r| <= |named|
  {
    if |named| == 0 then []
    else
      var c := named[|named| - 1];
      Provided(named[..|named| - 1], files, builds)
        + (if Usable(c, files) && builds(c) then [ShaderItem(c)] else [])
  }

  /** Filtering keeps the order: the items of a concatenation are the items of each part, in turn. */
  lemma {:induction false} ProvidedAppend(a: seq<ShaderConfig>, b: seq<ShaderConfig>, files: seq<string>, builds: ShaderConfig -> bool)
    requires forall k :: 0 <= k < |a| ==> a[k].name.Some? && a[k].description.Some?
    requires forall k :: 0 <= k < |b| ==> b[k].name.Some? && b[k].description.Some?
    ensures Provided(a + b, files, builds) == Provided(a, files, builds) + Provided(b, files, builds)
    decreases |b|
  {
    if |b| == 0 {
      assert a + b == a;
    } else {
      var m := |b| - 1;
      assert (a + b)[..|a + b| - 1] == a + b[..m];
      assert (a + b)[|a + b| - 1] == b[m];
      ProvidedAppend(a, b[..m], files, builds);
    }
  }

  /** When every entry is usable and builds, every entry is kept, in order, under its filled-in name. */
  lemma {:induction false} ProvidedAll(named: seq<ShaderConfig>, files: seq<string>, builds: ShaderConfig -> bool)
    requires forall k :: 0 <= k < |named| ==> named[k].name.Some? && named[k].description.Some?
    requires forall k :: 0 <= k < |named| ==> Usable(named[k], files) && builds(named[k])
    ensures |Provided(named, files, builds)| == |named|
    ensures forall k :: 0 <= k < |named| ==> Provided(named, files, builds)[k] == ShaderItem(named[k])
    decreases |named|
  {
    if |named| > 0 {
      var m := |named| - 1;
      ProvidedAll(named[..m], files, builds);
    }
  }

  /** The item comes from an entry of `named` whose files are listed and whose shader constructs. */
  ghost predicate FromUsable(item: Item<ParticleShader>, named: seq<ShaderConfig>, files: seq<string>, builds: ShaderConfig -> bool)
  {
    exists c :: c in named && c.name.Some? && c.description.Some? && Usable(c, files) && builds(c) && item == ShaderItem(c)
  }

  /** Every kept item comes from an entry whose shader files are all listed. */
  lemma {:induction false} ProvidedListed(named: seq<ShaderConfig>, files: seq<string>, builds: ShaderConfig -> bool)
    requires forall k :: 0 <= k < |named| ==> named[k].name.Some? && named[k].description.Some?
    ensures forall k :: 0 <= k < |Provided(named, files, builds)| ==> FromUsable(Provided(named, files, builds)[k], named, files, builds)
    decreases |named|
  {
    if |named| > 0 {
      var m := |named| - 1;
      var init, last := named[..m], named[m];
      ProvidedListed(init, files, builds);
      var prev := Provided(init, files, builds);
      var r := Provided(named, files, builds);
      assert r == prev + (if Usable(last, files) && builds(last) then [ShaderItem(last)] else []);
      forall k | 0 <= k < |r| ensures FromUsable(r[k], named, files, builds) {
        if k < |prev| {
          assert FromUsable(prev[k], init, files, builds);
          var c :| c in init && c.name.Some? && c.description.Some? && Usable(c, files) && builds(c) && prev[k] == ShaderItem(c);
          assert c in named;
        } else {
          assert last in named;
        }
      }
    }
  }

  /**
   * `create`: no "shaders.yaml" in the listing is an error (`None`);
   * otherwise that file is removed from the listing, the entries are named,
   * and the usable entries whose shader constructs are kept, in order.
   */
  method Create(listing: seq<string>, configs: seq<ShaderConfig>, builds: ShaderConfig -> bool)
    returns (r: Option<seq<Item<ParticleShader>>>)
    ensures ConfigFile !in listing <==> r.None?
    ensures ConfigFile in listing ==> r == Some(Provided(NameAll(configs), RemoveFirst(listing, ConfigFile), builds))
  {
    if ConfigFile !in listing {
      return None;
    }
    var files := RemoveFirst(listing, ConfigFile);
    var named := NameEntries(configs);
    var kept: seq<Item<ParticleShader>> := [];
    for i := 0 to |named|
      invariant kept == Provided(named[..i], files, builds)
    {
      assert named[..i + 1][..i] == named[..i];
      var config := named[i];
      var listed := AllListed([config.vertex, config.geometry, config.fragment], files);
      assert listed <==> Usable(config, files) by {
        var names := [config.vertex, config.geometry, config.fragment];
        assert names[0] == config.vertex && names[1] == config.geometry && names[2] == config.fragment;
      }
      if listed && builds(config) {
        kept := kept + [ShaderItem(config)];
      }
    }
    assert named[..|named|] == named;
    r := Some(kept);
  }
}
