/** The integer members of the C++ struct `Vector2i`: construction, dot and
    cross products, squared magnitude, component-wise arithmetic and the
    comparison operators.  Components are C++ `int`s modelled as unbounded
    integers (results agree with the source whenever it does not overflow). */
module Vector2 {

  datatype Vector2i = Vector2i(x: int, y: int)

  /** The default constructor yields (0, 0), the additive identity. */
  function Zero(): (v: Vector2i)
    ensures v.x == 0 && v.y == 0
    ensures forall w :: Add(v, w) == w && Add(w, v) == w
  {
    Vector2i(0, 0)
  }

  /** `Dot`: X * X' + Y * Y'. */
  function Dot(a: Vector2i, b: Vector2i): int
  {
    a.x * b.x + a.y * b.y
  }

  /** `Cross`: the z-component of the 3-d cross product, X * Y' - Y * X'. */
  function Cross(a: Vector2i, b: Vector2i): int
  {
    a.x * b.y - a.y * b.x
  }

  /** `SqrMagnitude`: the dot product of a vector with itself, never
      negative, and zero only for the zero vector. */
  function SqrMagnitude(v: Vector2i): (r: int)
    ensures r == Dot(v, v)
    ensures r >= 0
    ensures r == 0 <==> v == Zero()
  {
    var r := v.x * v.x + v.y * v.y;
    assert v.x != 0 ==> v.x * v.x > 0;
    assert v.y != 0 ==> v.y * v.y > 0;
    r
  }

  /** Unary `operator-`. */
  function Neg(v: Vector2i): Vector2i
  {
    Vector2i(-v.x, -v.y)
  }

  /** Binary `operator+`. */
  function Add(a: Vector2i, b: Vector2i): Vector2i
  {
    Vector2i(a.x + b.x, a.y + b.y)
  }

  /** Binary `operator-`. */
  function Sub(a: Vector2i, b: Vector2i): Vector2i
  {
    Vector2i(a.x - b.x, a.y - b.y)
  }

  /** `operator==`: both components equal, i.e. equality of the values. */
  function Equal(a: Vector2i, b: Vector2i): (r: bool)
    ensures r <==> a == b
  {
    a.x == b.x && a.y == b.y
  }

  /** `operator!=`: unlike `Rect2d`'s, exactly the negation of `operator==`. */
  function NotEqual(a: Vector2i, b: Vector2i): (r: bool)
    ensures r <==> !Equal(a, b)
  {
    a.x != b.x || a.y != b.y
  }

  lemma DotIsSymmetric(a: Vector2i, b: Vector2i)
    ensures Dot(a, b) == Dot(b, a)
  {
  }

  lemma CrossIsAntisymmetric(a: Vector2i, b: Vector2i)
    ensures Cross(a, b) == -Cross(b, a)
    ensures Cross(a, a) == 0
  {
  }

  /** Subtraction undoes addition: (a + b) - b == a. */
  lemma SubUndoesAdd(a: Vector2i, b: Vector2i)
    ensures Sub(Add(a, b), b) == a
    ensures Add(Sub(a, b), b) == a
  {
  }

  /** Unary minus is an involution and is subtraction from zero. */
  lemma NegIsInvolution(v: Vector2i)
    ensures Neg(Neg(v)) == v
    ensures Neg(v) == Sub(Zero(), v)
    ensures Add(v, Neg(v)) == Zero()
  {
  }

  /** Lagrange's identity in the plane: the squared dot and cross products
      together make up the product of the squared magnitudes. */
  lemma DotCrossIdentity(a: Vector2i, b: Vector2i)
    ensures Dot(a, b) * Dot(a, b) + Cross(a, b) * Cross(a, b)
         == SqrMagnitude(a) * SqrMagnitude(b)
  {
    var p, q, r, s := a.x, a.y, b.x, b.y;
    calc {
      Dot(a, b) * Dot(a, b) + Cross(a, b) * Cross(a, b);
      (p * r + q * s) * (p * r + q * s) + (p * s - q * r) * (p * s - q * r);
      { assert (p * r + q * s) * (p * r + q * s) == p * r * (p * r) + 2 * (p * r) * (q * s) + q * s * (q * s);
        assert (p * s - q * r) * (p * s - q * r) == p * s * (p * s) - 2 * (p * s) * (q * r) + q * r * (q * r); }
      p * r * (p * r) + q * s * (q * s) + p * s * (p * s) + q * r * (q * r);
      { assert p * r * (p * r) == p * p * (r * r);
        assert q * s * (q * s) == q * q * (s * s);
        assert p * s * (p * s) == p * p * (s * s);
        assert q * r * (q * r) == q * q * (r * r); }
      (p * p + q * q) * (r * r + s * s);
    }
  }
}
