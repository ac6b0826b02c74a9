/**
 * Exact 4x4 matrices standing in for the rendering library's float matrices.
 * Storage is column-major, as in that library: entry (row r, column c) sits at index 4 * c + r.
 */
module Matrix4 {

  type Mat4 = m: seq<real> | |m| == 16 witness seq(16, _ => 0.0)

  /** Entry at row `r`, column `c`. */
  function At(m: Mat4, r: nat, c: nat): real
    requires r < 4 && c < 4
  {
    m[4 * c + r]
  }

  /** The identity matrix: ones on the diagonal and zeros elsewhere. */
  function Identity(): (id: Mat4)
    ensures forall r: nat, c: nat :: r < 4 && c < 4 ==> At(id, r, c) == if r == c then 1.0 else 0.0
  {
    seq(16, k => if k % 5 == 0 then 1.0 else 0.0)
  }

  /** Row `r` of `a` times column `c` of `b`. */
  function Dot(a: Mat4, b: Mat4, r: nat, c: nat): real
    requires r < 4 && c < 4
  {
    At(a, r, 0) * At(b, 0, c) + At(a, r, 1) * At(b, 1, c) + At(a, r, 2) * At(b, 2, c) + At(a, r, 3) * At(b, 3, c)
  }

  /** The product `a * b`: transforming by it applies `b` first, then `a`. */
  function Mul(a: Mat4, b: Mat4): (p: Mat4)
    ensures forall r: nat, c: nat :: r < 4 && c < 4 ==> At(p, r, c) == Dot(a, b, r, c)
  {
    seq(16, k requires 0 <= k < 16 => Dot(a, b, k % 4, k / 4))
  }

  /** Row `r` of the identity picks entry `r` of a column. */
  lemma DotIdentityLeft(m: Mat4, r: nat, c: nat)
    requires r < 4 && c < 4
    ensures Dot(Identity(), m, r, c) == At(m, r, c)
  {
    var id := Identity();
    assert At(id, r, r) == 1.0;
    assert forall i: nat :: i < 4 && i != r ==> At(id, r, i) == 0.0;
  }

  /** Column `c` of the identity picks column `c` of a row. */
  lemma DotIdentityRight(m: Mat4, r: nat, c: nat)
    requires r < 4 && c < 4
    ensures Dot(m, Identity(), r, c) == At(m, r, c)
  {
    var id := Identity();
    assert At(id, c, c) == 1.0;
    assert forall i: nat :: i < 4 && i != c ==> At(id, i, c) == 0.0;
  }

  /** Composing with the identity on the left leaves a matrix unchanged. */
  lemma MulIdentityLeft(m: Mat4)
    ensures Mul(Identity(), m) == m
  {
    var p := Mul(Identity(), m);
    forall k | 0 <= k < 16
      ensures p[k] == m[k]
    {
      var r, c := k % 4, k / 4;
      assert k == 4 * c + r;
      DotIdentityLeft(m, r, c);
      assert p[k] == At(p, r, c);
    }
  }

  /** Composing with the identity on the right leaves a matrix unchanged. */
  lemma MulIdentityRight(m: Mat4)
    ensures Mul(m, Identity()) == m
  {
    var p := Mul(m, Identity());
    forall k | 0 <= k < 16
      ensures p[k] == m[k]
    {
      var r, c := k % 4, k / 4;
      assert k == 4 * c + r;
      DotIdentityRight(m, r, c);
      assert p[k] == At(p, r, c);
    }
  }

  /** The translation by `(x, y, z)`: the identity with the offset in the last column. */
  function Translation(x: real, y: real, z: real): (t: Mat4)
    ensures forall r: nat, c: nat :: r < 4 && c < 3 ==> At(t, r, c) == if r == c then 1.0 else 0.0
    ensures At(t, 0, 3) == x && At(t, 1, 3) == y && At(t, 2, 3) == z && At(t, 3, 3) == 1.0
  {
    seq(16, k => if k == 12 then x else if k == 13 then y else if k == 14 then z else if k % 5 == 0 then 1.0 else 0.0)
  }

  /** `translate(m, v)` of the rendering library: `m` followed, on the right, by the translation by `v`. */
  function Translate(m: Mat4, x: real, y: real, z: real): (t: Mat4)
    ensures forall r: nat :: r < 4 ==> At(t, r, 3) == At(m, r, 0) * x + At(m, r, 1) * y + At(m, r, 2) * z + At(m, r, 3)
    ensures forall r: nat, c: nat :: r < 4 && c < 3 ==> At(t, r, c) == At(m, r, c)
  {
    Mul(m, Translation(x, y, z))
  }
}
