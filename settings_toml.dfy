/**
 * `PhysicsSettingsToml`: the part of the physics settings kept in the
 * application's TOML file (boundary mode, radius, friction, force), and its
 * mapping to and from `PhysicsSettings`.
 */
module SettingsToml {
  import opened Settings

  const Periodic: string := "periodic"
  const Clamped: string := "clamped"

  /** The boundary name written for a wrap flag. */
  function BoundariesName(wrap: bool): (r: string)
    ensures r == Periodic || r == Clamped
    ensures (r == Periodic) == wrap
  {
    if wrap then Periodic else Clamped
  }

  /** The wrap flag read back from a boundary name: only the exact word "periodic" means wrapping. */
  predicate IsPeriodic(boundaries: string)
  {
    boundaries == Periodic
  }

  /** Reading back a written boundary name gives the flag it was written from, and nothing but "periodic" reads as wrapping. */
  lemma BoundariesRoundTrip(wrap: bool, other: string)
    requires other != Periodic
    ensures IsPeriodic(BoundariesName(wrap)) == wrap
    ensures !IsPeriodic(other)
    ensures !IsPeriodic(Clamped)
  {
  }

  class PhysicsSettingsToml {
    var boundaries: string
    /** Stored under the key "radius". */
    var rmax: real
    var friction: real
    var force: real

    /** The defaults: "periodic", radius 0.02, friction 0.85, force 1. */
    constructor ()
      ensures boundaries == Periodic && rmax == 0.02 && friction == 0.85 && force == 1.0
    {
      boundaries := Periodic;
      rmax := 0.02;
      friction := 0.85;
      force := 1.0;
    }

    /** `toPhysicsSettings`: sets the four mapped fields of `s`; its time step and matrix stay as they were. */
    method ToPhysicsSettings(s: PhysicsSettings)
      modifies s
      ensures s.wrap == IsPeriodic(boundaries)
      ensures s.rmax == rmax && s.friction == friction && s.force == force
      ensures s.dt == old(s.dt) && s.matrix == old(s.matrix)
    {
      s.wrap := boundaries == Periodic;
      s.rmax := rmax;
      s.friction := friction;
      s.force := force;
    }
  }

  /** `fromPhysicsSettings`: a new record holding the boundary name of `s.wrap` and its radius, friction and force. */
  method FromPhysicsSettings(s: PhysicsSettings) returns (t: PhysicsSettingsToml)
    ensures fresh(t)
    ensures t.boundaries == BoundariesName(s.wrap)
    ensures t.rmax == s.rmax && t.friction == s.friction && t.force == s.force
  {
    t := new PhysicsSettingsToml();
    t.boundaries := if s.wrap then Periodic else Clamped;
    t.rmax := s.rmax;
    t.friction := s.friction;
    t.force := s.force;
  }

  /**
   * Writing `s` to the TOML record and reading the record into `target`
   * gives `target` the wrap flag, radius, friction and force of `s`.
   */
  method SaveThenApply(s: PhysicsSettings, target: PhysicsSettings)
    modifies target
    ensures target.wrap == old(s.wrap) && target.rmax == old(s.rmax)
    ensures target.friction == old(s.friction) && target.force == old(s.force)
    ensures target.dt == old(target.dt) && target.matrix == old(target.matrix)
  {
    var t := FromPhysicsSettings(s);
    BoundariesRoundTrip(s.wrap, Clamped);
    t.ToPhysicsSettings(target);
  }
}
