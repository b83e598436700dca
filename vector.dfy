/**
 * Three-component vectors.  `Vec3` is the value (a point or a normal as it
 * travels through a sequence); `Vec3f` is the mutable record whose methods
 * overwrite the receiver's fields in place, as the renderer's vector type does.
 */
module Vector {

  datatype Vec3 = Vec3(x: real, y: real, z: real)

  /** Component-wise sum. */
  function Plus(a: Vec3, b: Vec3): Vec3 {
    Vec3(a.x + b.x, a.y + b.y, a.z + b.z)
  }

  /** Every component multiplied by `k`. */
  function Scaled(v: Vec3, k: real): Vec3 {
    Vec3(k * v.x, k * v.y, k * v.z)
  }

  /** Inner product. */
  function DotProduct(a: Vec3, b: Vec3): real {
    a.x * b.x + a.y * b.y + a.z * b.z
  }

  /** The squared length is never negative, so the norm `sqrt(v . v)` always exists. */
  lemma DotSelfNonNegative(v: Vec3)
    ensures DotProduct(v, v) >= 0.0
  {
    SquarePositive(v.x);
    SquarePositive(v.y);
    SquarePositive(v.z);
  }

  lemma SquarePositive(a: real)
    ensures a * a >= 0.0
  {
    if a < 0.0 {
      var b := -a;
      assert b * b > 0.0;
      assert b * b == a * a;
    }
  }

  /** Negating twice gives the vector back. */
  lemma NegateTwice(v: Vec3)
    ensures Scaled(Scaled(v, -1.0), -1.0) == v
  {
  }

  /** Subtracting what was added restores the receiver: `Sub` undoes `Add`. */
  lemma SubUndoesAdd(a: Vec3, b: Vec3)
    ensures Plus(Plus(a, b), Scaled(b, -1.0)) == a
  {
  }

  class Vec3f {
    var X: real
    var Y: real
    var Z: real

    /** The struct literal `Vec3f{x, y, z}`. */
    constructor (x: real, y: real, z: real)
      ensures Value() == Vec3(x, y, z)
    {
      X, Y, Z := x, y, z;
    }

    /** The current contents as a value. */
    function Value(): Vec3
      reads this
    {
      Vec3(X, Y, Z)
    }

    /** Adds `rhs` into the receiver and returns the receiver; `rhs` may be the receiver itself. */
    method Add(rhs: Vec3f) returns (r: Vec3f)
      modifies this
      ensures r == this
      ensures Value() == Plus(old(Value()), old(rhs.Value()))
    {
      X := X + rhs.X;
      Y := Y + rhs.Y;
      Z := Z + rhs.Z;
      r := this;
    }

    /** Inner product of the two records; neither is changed. */
    function Dot(rhs: Vec3f): (d: real)
      reads this, rhs
      ensures d == DotProduct(Value(), rhs.Value())
      ensures rhs == this ==> d >= 0.0
    {
      DotSelfNonNegative(Value());
      X * rhs.X + Y * rhs.Y + Z * rhs.Z
    }

    /** Multiplies the receiver by `a` in place and returns the receiver. */
    method ScalarMul(a: real) returns (r: Vec3f)
      modifies this
      ensures r == this
      ensures Value() == Scaled(old(Value()), a)
    {
      X := X * a;
      Y := Y * a;
      Z := Z * a;
      r := this;
    }

    /**
     * `v.Sub(rhs)` is `v.Add(rhs.ScalarMul(-1))`: it first negates `rhs` in
     * place and then adds the negated `rhs` into the receiver.  So `rhs` is left
     * negated, and when `rhs` is the receiver the receiver ends at `-2` times
     * its old value.
     */
    method Sub(rhs: Vec3f) returns (r: Vec3f)
      modifies this, rhs
      ensures r == this
      ensures rhs != this ==> Value() == Plus(old(Value()), Scaled(old(rhs.Value()), -1.0))
      ensures rhs != this ==> rhs.Value() == Scaled(old(rhs.Value()), -1.0)
      ensures rhs == this ==> Value() == Scaled(old(Value()), -2.0)
    {
      var negated := rhs.ScalarMul(-1.0);
      r := Add(negated);
    }
  }
}
