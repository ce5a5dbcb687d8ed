/** Shared vocabulary: optional results and named products of reals. */
module Common {

  datatype Option<+T> = None | Some(value: T)

  function Abs(x: real): real { if x < 0.0 then -x else x }
  function Min(x: real, y: real): real { if x < y then x else y }
  function Max(x: real, y: real): real { if x < y then y else x }

  predicate Within(x: real, p: real, q: real) { Min(p, q) <= x <= Max(p, q) }

  /** A named product: equal factors give equal products by congruence. */
  function Mul(x: real, y: real): real { x * y }

  lemma MulSign(x: real, y: real)
    ensures x >= 0.0 && y >= 0.0 ==> Mul(x, y) >= 0.0
    ensures x > 0.0 && y > 0.0 ==> Mul(x, y) > 0.0
    ensures (x < 0.0 && y > 0.0) || (x > 0.0 && y < 0.0) ==> Mul(x, y) < 0.0
    ensures x < 0.0 && y < 0.0 ==> Mul(x, y) > 0.0
    ensures x == 0.0 || y == 0.0 ==> Mul(x, y) == 0.0
  {
  }

  lemma MulAdd(x: real, y: real, z: real)
    ensures Mul(x + y, z) == Mul(x, z) + Mul(y, z) && Mul(z, x + y) == Mul(z, x) + Mul(z, y)
    ensures Mul(x - y, z) == Mul(x, z) - Mul(y, z) && Mul(z, x - y) == Mul(z, x) - Mul(z, y)
  {
  }

  ghost function Any<T>(s: set<T>): (x: T)
    requires s != {}
    ensures x in s
  {
    var x :| x in s; x
  }

  lemma {:induction false} SubsetSize<T>(a: set<T>, b: set<T>)
    requires a <= b
    ensures |a| <= |b|
  {
    if a != {} {
      var x := Any(a);
      SubsetSize(a - {x}, b - {x});
    }
  }
}
