/**
 * `PhysicsSnapshot`: a copy of the simulation state for the renderer. The
 * particles are flattened into a position buffer, a velocity buffer (three
 * entries per particle each) and a type buffer; the settings are copied and
 * the type histogram recorded. The buffers are filled by one sequential
 * loop here; the clock reading is a parameter.
 */
module Snapshots {
  import opened Wrappers
  import opened Vectors
  import opened Particles
  import opened Settings
  import opened ArrayUtils
  import opened Histograms
  import opened PhysicsEngine
  import opened TypeCounts

  /** The state of particle i as the three buffers hold it. */
  function Recorded(positions: seq<real>, velocities: seq<real>, types: seq<int>, i: int): ParticleState
    requires 0 <= i < |types| && |positions| == |velocities| == 3 * |types|
  {
    ParticleState(
      Vec3(positions[3 * i], positions[3 * i + 1], positions[3 * i + 2]),
      Vec3(velocities[3 * i], velocities[3 * i + 1], velocities[3 * i + 2]),
      types[i])
  }

  /** The loop of `write` (run in parallel batches in the source): entry i of the buffers records particle i. */
  method Fill(ps: array<Particle>, pos: array<real>, vel: array<real>, ty: array<int>)
    requires pos != vel && pos.Length == vel.Length == 3 * ty.Length && ty.Length == ps.Length
    modifies pos, vel, ty
    ensures forall i :: 0 <= i < ps.Length ==> Recorded(pos[..], vel[..], ty[..], i) == ps[i].State()
  {
    for i := 0 to ps.Length
      invariant forall j :: 0 <= j < i ==> Recorded(pos[..], vel[..], ty[..], j) == ps[j].State()
    {
      var p := ps[i];
      var i3 := 3 * i;
      pos[i3] := p.position.x;
      pos[i3 + 1] := p.position.y;
      pos[i3 + 2] := p.position.z;
      vel[i3] := p.velocity.x;
      vel[i3 + 1] := p.velocity.y;
      vel[i3 + 2] := p.velocity.z;
      ty[i] := p.kind;
    }
  }

  class PhysicsSnapshot {
    var positions: array?<real>
    var velocities: array?<real>
    var types: array?<int>
    var settings: PhysicsSettings?
    var particleCount: int
    var typeCount: array?<int>
    /** When the snapshot was taken, in milliseconds. */
    var snapshotTime: int

    /** Once allocated, the two vector buffers are separate and three times as long as the type buffer. */
    ghost predicate Valid()
      reads this
    {
      types != null ==>
        positions != null && velocities != null && positions != velocities
        && positions.Length == velocities.Length == 3 * types.Length
    }

    /** A new snapshot has no buffers yet, as Java's field defaults leave it. */
    constructor ()
      ensures Valid() && types == null && settings == null && typeCount == null
    {
      positions, velocities, types := null, null, null;
      settings, particleCount, typeCount, snapshotTime := null, 0, null, 0;
    }

    /**
     * `write`: the buffers are allocated anew when there are none or their
     * particle count differs from `ps.Length`, and reused otherwise; then
     * entry i of the snapshot records particle i.
     */
    method Write(ps: array<Particle>)
      requires Valid()
      modifies this`positions, this`velocities, this`types, positions, velocities, types
      ensures Valid() && types != null && types.Length == ps.Length
      ensures old(types) != null && old(types.Length) == ps.Length ==>
        types == old(types) && positions == old(positions) && velocities == old(velocities)
      ensures old(types) == null || old(types.Length) != ps.Length ==>
        fresh(types) && fresh(positions) && fresh(velocities)
      ensures forall i :: 0 <= i < ps.Length ==> Recorded(positions[..], velocities[..], types[..], i) == ps[i].State()
    {
      var n := ps.Length;
      var pos: array<real>, vel: array<real>, ty: array<int>;
      if types == null || types.Length != n {
        pos, vel, ty := new real[n * 3], new real[n * 3], new int[n];
      } else {
        pos, vel, ty := positions, velocities, types;
      }
      positions, velocities, types := pos, vel, ty;
      Fill(ps, pos, vel, ty);
    }

    /**
     * `take`: the buffers record every particle, the settings are a deep
     * copy (a new object equal to the physics' settings), and the particle
     * count is that of the physics; then the type histogram is recorded and
     * the time stamped, `now` standing for the clock reading. A particle
     * type outside [0, size) makes `getTypeCount` fail after the buffers,
     * the settings and the count are written, and the histogram and the
     * time stamp keep their old values.
     */
    method Take(ph: Physics, now: int) returns (r: Outcome<TypeCountError>)
      requires Valid() && ph.settings.Valid()
      modifies this`positions, this`velocities, this`types, positions, velocities, types
      modifies this`settings, this`particleCount, this`typeCount, this`snapshotTime
      ensures Valid() && types != null && types.Length == ph.particles.Length
      ensures forall i :: 0 <= i < ph.particles.Length ==>
        Recorded(positions[..], velocities[..], types[..], i) == ph.particles[i].State()
      ensures settings != null && fresh(settings) && fresh(settings.matrix) && settings.Valid()
      ensures ph.settings.SameAs(settings)
      ensures particleCount == ph.particles.Length
      ensures r.Pass? <==> InRange(Kinds(ph.particles[..]), ph.settings.matrix.size)
      ensures r.Pass? ==> typeCount != null && typeCount[..] == Histogram(Kinds(ph.particles[..]), ph.settings.matrix.size)
      ensures r.Pass? ==> snapshotTime == now
      ensures r.Fail? ==>
        typeCount == old(typeCount) && snapshotTime == old(snapshotTime)
        && Stray(r.error, Kinds(ph.particles[..]), ph.settings.matrix.size)
    {
      Record(ph);
      r := Count(ph, now);
    }

    /** The buffers from `write`, then `settings = p.settings.deepCopy()`. */
    method Record(ph: Physics)
      requires Valid() && ph.settings.Valid()
      modifies this`positions, this`velocities, this`types, positions, velocities, types, this`settings
      ensures Valid() && types != null && types.Length == ph.particles.Length
      ensures forall i :: 0 <= i < ph.particles.Length ==>
        Recorded(positions[..], velocities[..], types[..], i) == ph.particles[i].State()
      ensures settings != null && fresh(settings) && fresh(settings.matrix) && settings.Valid()
      ensures ph.settings.SameAs(settings)
    {
      Write(ph.particles);
      settings := ph.settings.DeepCopy();
    }

    /** The particle count, then the histogram from `getTypeCount` and the time stamp, which a failing count leaves as they were. */
    method Count(ph: Physics, now: int) returns (r: Outcome<TypeCountError>)
      modifies this`particleCount, this`typeCount, this`snapshotTime
      ensures particleCount == ph.particles.Length
      ensures r.Pass? <==> InRange(Kinds(ph.particles[..]), ph.settings.matrix.size)
      ensures r.Pass? ==>
        typeCount != null && fresh(typeCount) && snapshotTime == now
        && typeCount[..] == Histogram(Kinds(ph.particles[..]), ph.settings.matrix.size)
      ensures r.Fail? ==>
        typeCount == old(typeCount) && snapshotTime == old(snapshotTime)
        && Stray(r.error, Kinds(ph.particles[..]), ph.settings.matrix.size)
    {
      particleCount := ph.particles.Length;
      var counts;
      counts, r := GetTypeCount(ph);
      if r.Pass? {
        typeCount, snapshotTime := counts, now;
      }
    }
  }
}
