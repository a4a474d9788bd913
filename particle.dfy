/**
 * A particle: position and velocity vectors and an integer type. The Java
 * `Particle` class is not part of this model; its fields are those the core
 * reads and writes, and a new particle starts from Java's field defaults.
 */
module Particles {
  import opened Vectors

  /** The value a particle holds at one moment. */
  datatype ParticleState = ParticleState(position: Vec3, velocity: Vec3, kind: int)

  class Particle {
    var position: Vec3
    var velocity: Vec3
    /** The particle's type, an index into the interaction matrix. */
    var kind: int

    constructor ()
      ensures position == Zero3 && velocity == Zero3 && kind == 0
    {
      position := Zero3;
      velocity := Zero3;
      kind := 0;
    }

    function State(): ParticleState
      reads this
    {
      ParticleState(position, velocity, kind)
    }
  }

  /** The states of the particles of `ps`, in array order. */
  function States(ps: seq<Particle>): (r: seq<ParticleState>)
    reads set p | p in ps
    ensures |r| == |ps| && forall i :: 0 <= i < |ps| ==> r[i] == ps[i].State()
  {
    if |ps| == 0 then [] else [ps[0].State()] + States(ps[1..])
  }

  /** No particle object occurs twice. */
  predicate Distinct(ps: seq<Particle>)
  {
    forall i, j :: 0 <= i < j < |ps| ==> ps[i] != ps[j]
  }

  /** The types of the particles of `ps`, in array order. */
  function Kinds(ps: seq<Particle>): (r: seq<int>)
    reads set p | p in ps
    ensures |r| == |ps| && forall i :: 0 <= i < |ps| ==> r[i] == ps[i].kind
  {
    seq(|ps|, i requires 0 <= i < |ps| reads ps => ps[i].kind)
  }

  /** A sequence without repetitions holds each object at most once. */
  lemma {:induction false} DistinctCounts(ps: seq<Particle>)
    requires Distinct(ps)
    ensures forall p :: multiset(ps)[p] <= 1
    decreases |ps|
  {
    if ps != [] {
      var m := |ps| - 1;
      DistinctCounts(ps[..m]);
      assert ps == ps[..m] + [ps[m]];
      assert ps[m] !in ps[..m];
    }
  }

  /** A rearrangement of a sequence without repetitions has none either. */
  lemma PermutationDistinct(ps: seq<Particle>, qs: seq<Particle>)
    requires Distinct(ps) && multiset(ps) == multiset(qs)
    ensures Distinct(qs)
  {
    DistinctCounts(ps);
    forall i, j | 0 <= i < j < |qs| ensures qs[i] != qs[j] {
      TwoOccurrences(qs, i, j);
    }
  }

  lemma TwoOccurrences(qs: seq<Particle>, i: int, j: int)
    requires 0 <= i < j < |qs|
    ensures qs[i] == qs[j] ==> multiset(qs)[qs[j]] >= 2
  {
    assert qs == qs[..j] + [qs[j]] + qs[j + 1..];
    assert qs[i] in qs[..j];
  }
}
