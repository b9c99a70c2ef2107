/**
 * Newton's third law in the pairwise pass (src/lib.rs:207-208): every pair adds
 * `m_j f` to body `i` and `-m_i f` to body `j`, so the mass-weighted gravity the
 * pass hands out sums to zero and the total momentum is unchanged by gravity.
 */
module Momentum {
  import opened Vectors
  import opened Bodies
  import opened Pairs

  /** `sum over k < cnt of m_k * PullSum(k, hi)`: the momentum change gravity from bodies below `hi` gives bodies below `cnt`. */
  function MassPulls(s: seq<Body>, field: Field, hi: nat, cnt: nat): Vec2
    requires cnt <= |s| && hi <= |s|
    decreases cnt
  {
    if cnt == 0 then Zero
    else Plus(MassPulls(s, field, hi, cnt - 1), Scale(s[cnt - 1].m, PullSum(s, field, cnt - 1, hi)))
  }

  /** `sum over k < cnt of m_k * Pull(k, n)`: what body `n` does to the bodies below `cnt`. */
  function Actions(s: seq<Body>, field: Field, n: nat, cnt: nat): Vec2
    requires cnt <= |s| && n < |s|
    decreases cnt
  {
    if cnt == 0 then Zero
    else Plus(Actions(s, field, n, cnt - 1), Scale(s[cnt - 1].m, Pull(s, field, cnt - 1, n)))
  }

  /** `sum over k < cnt of m_n * Pull(n, k)`: what the bodies below `cnt` do to body `n`. */
  function Reactions(s: seq<Body>, field: Field, n: nat, cnt: nat): Vec2
    requires cnt <= |s| && n < |s|
    decreases cnt
  {
    if cnt == 0 then Zero
    else Plus(Reactions(s, field, n, cnt - 1), Scale(s[n].m, Pull(s, field, n, cnt - 1)))
  }

  /** One pair, weighted by the masses, cancels: `m_k Pull(k, n) + m_n Pull(n, k) = 0`. */
  lemma PairCancels(s: seq<Body>, field: Field, k: nat, n: nat)
    requires k < n < |s|
    ensures Plus(Scale(s[k].m, Pull(s, field, k, n)), Scale(s[n].m, Pull(s, field, n, k))) == Zero
  {
    var f := field.gravity(Minus(s[n].q, s[k].q));
    assert Pull(s, field, k, n) == Scale(s[n].m, f);
    assert Pull(s, field, n, k) == Scale(-s[k].m, f);
    assert s[k].m * (s[n].m * f.x) + s[n].m * (-s[k].m * f.x) == 0.0;
    assert s[k].m * (s[n].m * f.y) + s[n].m * (-s[k].m * f.y) == 0.0;
  }

  lemma ScalePlus(k: real, u: Vec2, v: Vec2)
    ensures Scale(k, Plus(u, v)) == Plus(Scale(k, u), Scale(k, v))
  {
    assert k * (u.x + v.x) == k * u.x + k * v.x;
    assert k * (u.y + v.y) == k * u.y + k * v.y;
  }

  /** Raising the bound `hi` by one adds body `hi`'s pull on every body below `cnt`. */
  lemma {:induction false} MassPullsGrow(s: seq<Body>, field: Field, n: nat, cnt: nat)
    requires cnt <= n < |s|
    ensures MassPulls(s, field, n + 1, cnt) == Plus(MassPulls(s, field, n, cnt), Actions(s, field, n, cnt))
    decreases cnt
  {
    if cnt > 0 {
      var c := cnt - 1;
      MassPullsGrow(s, field, n, c);
      var a, p := PullSum(s, field, c, n), Pull(s, field, c, n);
      assert PullSum(s, field, c, n + 1) == Plus(a, p);
      ScalePlus(s[c].m, a, p);
    }
  }

  /** The pull body `n` receives from the bodies below `cnt`, weighted by its mass. */
  lemma {:induction false} ScaledPullSum(s: seq<Body>, field: Field, n: nat, cnt: nat)
    requires cnt <= n < |s|
    ensures Scale(s[n].m, PullSum(s, field, n, cnt)) == Reactions(s, field, n, cnt)
    decreases cnt
  {
    if cnt > 0 {
      ScaledPullSum(s, field, n, cnt - 1);
      ScalePlus(s[n].m, PullSum(s, field, n, cnt - 1), Pull(s, field, n, cnt - 1));
    }
  }

  lemma {:induction false} ActionsCancelReactions(s: seq<Body>, field: Field, n: nat, cnt: nat)
    requires cnt <= n < |s|
    ensures Plus(Actions(s, field, n, cnt), Reactions(s, field, n, cnt)) == Zero
    decreases cnt
  {
    if cnt > 0 {
      ActionsCancelReactions(s, field, n, cnt - 1);
      PairCancels(s, field, cnt - 1, n);
    }
  }

  /**
   * Over the first `n` bodies, the mass-weighted pulls among them sum to zero;
   * with `n = |s|` this is conservation of momentum under the gravity of the pass.
   */
  lemma {:induction false} GravityConservesMomentum(s: seq<Body>, field: Field, n: nat)
    requires n <= |s|
    ensures MassPulls(s, field, n, n) == Zero
    decreases n
  {
    if n > 0 {
      var m := n - 1;
      GravityConservesMomentum(s, field, m);
      MassPullsGrow(s, field, m, m);
      assert PullSum(s, field, m, n) == PullSum(s, field, m, m);
      ScaledPullSum(s, field, m, m);
      ActionsCancelReactions(s, field, m, m);
    }
  }
}
