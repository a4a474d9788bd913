/** `PhysicsSettings`: the simulation parameters and the interaction matrix. */
module Settings {
  import opened Matrices

  /** The double nearest to the float literal `0.02f`, which the default time step is widened from. */
  const FloatTwoHundredths: real := 0.0199999995529651641845703125

  class PhysicsSettings {
    /** Particles interact across the world's borders. */
    var wrap: bool
    /** No interaction between particles further apart than this. */
    var rmax: real
    var friction: real
    var force: real
    var dt: real
    var matrix: DefaultMatrix

    ghost predicate Valid()
      reads this, matrix
    {
      matrix.Valid()
    }

    /** The field defaults: periodic world, rmax 0.02, friction 0.85, force 1, dt 0.02f and a 6 by 6 zero matrix. */
    constructor ()
      ensures Valid() && fresh(matrix) && fresh(matrix.values)
      ensures wrap && rmax == 0.02 && friction == 0.85 && force == 1.0
      ensures dt == FloatTwoHundredths
      ensures matrix.size == 6
      ensures forall i, j :: 0 <= i < 6 && 0 <= j < 6 ==> matrix.Get(i, j) == 0.0
    {
      wrap := true;
      rmax := 0.02;
      friction := 0.85;
      force := 1.0;
      dt := FloatTwoHundredths;
      matrix := new DefaultMatrix(6);
    }

    /** `equals`, stated over the values: every scalar equal and equal matrices. */
    predicate SameAs(o: PhysicsSettings)
      requires Valid() && o.Valid()
      reads this, matrix, matrix.values, o, o.matrix, o.matrix.values
    {
      o.wrap == wrap && o.rmax == rmax && o.friction == friction && o.force == force && o.dt == dt
      && o.matrix.size == matrix.size && o.matrix.Rows() == matrix.Rows()
    }

    /** `deepCopy`: equal settings whose matrix is a new object with storage of its own. */
    method DeepCopy() returns (p: PhysicsSettings)
      requires Valid()
      ensures fresh(p) && fresh(p.matrix) && fresh(p.matrix.values) && p.Valid()
      ensures SameAs(p)
    {
      p := new PhysicsSettings();
      p.wrap := wrap;
      p.rmax := rmax;
      p.friction := friction;
      p.force := force;
      p.dt := dt;
      p.matrix := matrix.DeepCopy();
    }

    /**
     * `equals`: false for null (standing for an object of another class),
     * and otherwise true exactly when the five scalars and the matrices agree.
     */
    method Equals(o: PhysicsSettings?) returns (b: bool)
      requires Valid() && (o != null ==> o.Valid())
      ensures b <==> o != null && SameAs(o)
    {
      if o == null {
        return false;
      }
      if o.wrap != wrap || o.rmax != rmax || o.friction != friction || o.force != force || o.dt != dt {
        return false;
      }
      b := o.matrix.Equals(matrix);
    }
  }
}
