/** Plane vectors over the reals, standing in for the float32 pairs of the simulation.
    The Euclidean norm `np.sqrt(np.sum(v**2))` is not computed: every member that needs
    it takes it as a parameter `norm` constrained by `NormLike`, the properties of the
    Euclidean norm that the facts below rely on. */
module Geometry {
  import opened Common

  datatype Vec2 = Vec2(x: real, y: real)

  const Zero: Vec2 := Vec2(0.0, 0.0)

  /** The `1e-5` that the kernels add to a magnitude before dividing by it. */
  const Epsilon: real := 0.00001

  function Add(a: Vec2, b: Vec2): Vec2 { Vec2(a.x + b.x, a.y + b.y) }

  function Sub(a: Vec2, b: Vec2): Vec2 { Vec2(a.x - b.x, a.y - b.y) }

  function Neg(a: Vec2): Vec2 { Vec2(-a.x, -a.y) }

  function Scale(a: Vec2, k: real): Vec2 { Vec2(a.x * k, a.y * k) }

  function Div(a: Vec2, k: real): Vec2
    requires k != 0.0
  {
    Vec2(a.x / k, a.y / k)
  }

  function Dot(a: Vec2, b: Vec2): real { a.x * b.x + a.y * b.y }

  /** A float pair that is either an ordinary value or has been poisoned by `0 / 0`;
      NaN absorbs every later addition. */
  datatype FloatPair = Num(v: Vec2) | NaN

  function AddPair(a: FloatPair, b: FloatPair): (r: FloatPair)
    ensures r.NaN? <==> a.NaN? || b.NaN?
    ensures r.Num? ==> r.v == Add(a.v, b.v)
  {
    if a.Num? && b.Num? then Num(Add(a.v, b.v)) else NaN
  }

  /** `forces[i] += term` when the kernel produced a term, nothing otherwise. */
  function AddTerm(acc: FloatPair, t: Option<FloatPair>): FloatPair
  {
    if t.Some? then AddPair(acc, t.value) else acc
  }

  /** What the model assumes of the Euclidean norm: non-negative, zero exactly at the
      zero vector, unchanged by negation, and scaled by a non-negative factor. */
  ghost predicate NormLike(norm: Vec2 -> real)
  {
    && (forall v :: norm(v) >= 0.0)
    && (forall v :: norm(v) == 0.0 <==> v == Zero)
    && (forall v :: norm(Neg(v)) == norm(v))
    && (forall v, k :: 0.0 <= k ==> norm(Scale(v, k)) == k * norm(v))
  }

  /** Euclidean distance between two positions. */
  function Distance(norm: Vec2 -> real, p: Vec2, q: Vec2): (r: real)
    requires NormLike(norm)
    ensures r >= 0.0
    ensures r == 0.0 <==> p == q
  {
    assert Sub(p, q) == Zero ==> p == q;
    norm(Sub(p, q))
  }

  /** The distance is the same in both directions. */
  lemma DistanceSymmetric(norm: Vec2 -> real, p: Vec2, q: Vec2)
    requires NormLike(norm)
    ensures Distance(norm, p, q) == Distance(norm, q, p)
  {
    assert Sub(q, p) == Neg(Sub(p, q));
  }

  /** Scaling by a factor in `[0, 1]` never lengthens a vector. */
  lemma ScaleShrinks(norm: Vec2 -> real, v: Vec2, s: real)
    requires NormLike(norm)
    requires 0.0 <= s <= 1.0
    ensures norm(Scale(v, s)) <= norm(v)
  {
    assert norm(Scale(v, s)) == s * norm(v);
    assert s * norm(v) <= 1.0 * norm(v);
  }
}
