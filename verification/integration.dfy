/** The integration pass that closes every step (src/lib.rs:232-245). */
module Integration {
  import opened Vectors
  import opened Params
  import opened Bodies

  /**
   * Advances one body by `dt`. On its first step (`lifetime == 0`) `qp` is read as
   * the initial velocity and the position moves by `v dt + a dt^2 / 2`; afterwards
   * the step is position Verlet: the new displacement is the previous one plus
   * `a dt^2`. Either way the old position becomes `qp`, the acceleration is
   * cleared and the body ages by one tick; identity, kind and mass stay.
   */
  function Step(b: Body): (r: Body)
    ensures r.id == b.id && r.kind == b.kind && r.m == b.m
    ensures r.lifetime == b.lifetime + 1 && r.qp == b.q && r.a == Zero
    ensures b.lifetime == 0 ==> Minus(r.q, r.qp) == Plus(Scale(Dt, b.qp), Scale(Dt * Dt / 2.0, b.a))
    ensures b.lifetime > 0 ==> Minus(Minus(r.q, r.qp), Minus(b.q, b.qp)) == Scale(Dt * Dt, b.a)
  {
    var qn :=
      if b.lifetime == 0 then Plus(Plus(b.q, Scale(Dt, b.qp)), Scale(Dt * Dt, Scale(0.5, b.a)))
      else Plus(Minus(Scale(2.0, b.q), b.qp), Scale(Dt * Dt, b.a));
    b.(qp := b.q, q := qn, a := Zero, lifetime := b.lifetime + 1)
  }

  /** `k` steps of one body with nothing pulling on it. */
  function Steps(b: Body, k: nat): Body
    decreases k
  {
    if k == 0 then b else Steps(Step(b), k - 1)
  }

  /**
   * Without acceleration a body keeps its velocity: a body that has been stepped
   * before moves by its last displacement `q - qp` on every step.
   */
  lemma {:induction false} DriftKeepsDisplacement(b: Body, k: nat)
    requires b.lifetime > 0 && b.a == Zero
    ensures Minus(Steps(b, k).q, Steps(b, k).qp) == Minus(b.q, b.qp)
    ensures Steps(b, k).q == Plus(b.q, Scale(k as real, Minus(b.q, b.qp)))
    ensures Steps(b, k).lifetime == b.lifetime + k && Steps(b, k).a == Zero
    decreases k
  {
    if k > 0 {
      var b' := Step(b);
      assert Minus(b'.q, b'.qp) == Minus(b.q, b.qp);
      DriftKeepsDisplacement(b', k - 1);
      assert Steps(b, k) == Steps(b', k - 1);
      var d := Minus(b.q, b.qp);
      assert (k - 1) as real + 1.0 == k as real;
      assert Plus(b'.q, Scale((k - 1) as real, d)) == Plus(b.q, Scale(k as real, d));
    }
  }

  /**
   * A fresh body launched with velocity `v` (stored in `qp`) and no acceleration
   * is at `q + k v dt` after `k` steps: the first step reads `qp` as a velocity,
   * and every later step repeats the displacement `v dt`.
   */
  lemma UniformMotionFromLaunch(b: Body, k: nat)
    requires Fresh(b)
    ensures Steps(b, k).q == Plus(b.q, Scale(k as real * Dt, b.qp))
    ensures k > 0 ==> Steps(b, k).lifetime == k && Minus(Steps(b, k).q, Steps(b, k).qp) == Scale(Dt, b.qp)
  {
    if k > 0 {
      var b' := Step(b);
      assert b'.q == Plus(b.q, Scale(Dt, b.qp));
      DriftKeepsDisplacement(b', k - 1);
      assert Steps(b, k) == Steps(b', k - 1);
      var d := Scale(Dt, b.qp);
      assert Plus(b'.q, Scale((k - 1) as real, d)) == Plus(b.q, Scale(k as real * Dt, b.qp));
    }
  }

  /**
   * The loop `for i in 0..n`: steps the first `n` bodies in place and leaves the
   * bodies from index `n` on (the dust born during this step) untouched.
   */
  method Integrate(s: seq<Body>, n: nat) returns (r: seq<Body>)
    requires n <= |s|
    ensures |r| == |s|
    ensures forall k :: 0 <= k < n ==> r[k] == Step(s[k])
    ensures forall k :: n <= k < |s| ==> r[k] == s[k]
  {
    r := s;
    var i := 0;
    while i < n
      invariant i <= n && |r| == |s|
      invariant forall k :: 0 <= k < i ==> r[k] == Step(s[k])
      invariant forall k :: i <= k < |s| ==> r[k] == s[k]
    {
      r := r[i := Step(r[i])];
      i := i + 1;
    }
  }
}
