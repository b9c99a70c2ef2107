/** One simulation step `tick` (src/lib.rs:170-246): prune, pair, integrate. */
module Ticks {
  import opened Vectors
  import opened Params
  import opened Bodies
  import opened Systems
  import opened Pruning
  import opened Pairs
  import opened Integration

  /**
   * What the pairwise and integration passes make of the bodies `s` present after
   * pruning: each of them receives its net acceleration and is then stepped; the
   * dust born during the pairwise pass follows them, stamped with fresh ids from
   * `keygen`, and is not stepped until the next tick.
   */
  predicate Advanced(s: seq<Body>, keygen: nat, field: Field, draws: (nat, real) -> bool, next: System) {
    var e := Emitters(s, |s|, draws);
    && |next.bodies| == |s| + |e|
    && next.keygen == keygen + |e|
    && (forall k :: 0 <= k < |s| ==> next.bodies[k] == Step(s[k].(a := Plus(s[k].a, NetAccel(s, field, k)))))
    && (forall t :: 0 <= t < |e| ==> next.bodies[|s| + t] == Offspring(s, field, e[t]).(id := keygen + t))
  }

  /** The pairwise pass followed by the integration pass over the bodies present when it starts. */
  method Advance(sys: System, field: Field, draws: (nat, real) -> bool) returns (next: System)
    ensures Advanced(sys.bodies, sys.keygen, field, draws, next)
  {
    var paired, _, _ := PairPass(sys, field, draws);
    var stepped := Integrate(paired.bodies, |sys.bodies|);
    next := System(paired.keygen, stepped);
    forall k | 0 <= k < |sys.bodies|
      ensures next.bodies[k] == Step(sys.bodies[k].(a := Plus(sys.bodies[k].a, NetAccel(sys.bodies, field, k))))
    {
      assert stepped[k] == Step(paired.bodies[k]);
    }
    forall t | 0 <= t < |Emitters(sys.bodies, |sys.bodies|, draws)|
      ensures next.bodies[|sys.bodies| + t]
              == Offspring(sys.bodies, field, Emitters(sys.bodies, |sys.bodies|, draws)[t]).(id := sys.keygen + t)
    {
      assert stepped[|sys.bodies| + t] == paired.bodies[|sys.bodies| + t];
    }
  }

  /**
   * One step of the whole system. The survivors are the bodies that are neither
   * expired nor escaped, in the order the removal pass leaves them (the bodies
   * before the first eviction, the primary among them, keep their places); the
   * pairwise and integration passes then run over them. A valid system stays valid.
   */
  method Tick(sys: System, field: Field, draws: (nat, real) -> bool) returns (next: System, survivors: seq<Body>)
    ensures |survivors| <= |sys.bodies| && next.keygen >= sys.keygen
    ensures (forall k :: 0 <= k < |sys.bodies| ==> Keep(sys.bodies[k])) ==> survivors == sys.bodies
    ensures forall k :: 0 <= k < |sys.bodies| && KeptThrough(sys.bodies, k) ==> k < |survivors| && survivors[k] == sys.bodies[k]
    ensures multiset(survivors) == multiset(Survivors(sys.bodies))
    ensures forall k :: 0 <= k < |survivors| ==> Keep(survivors[k])
    ensures Advanced(survivors, sys.keygen, field, draws, next)
    ensures Valid(sys) ==> Valid(next)
  {
    survivors := Prune(sys.bodies);
    assert |survivors| == |multiset(survivors)| == |multiset(Survivors(sys.bodies))| == |Survivors(sys.bodies)|;
    next := Advance(System(sys.keygen, survivors), field, draws);
    if Valid(sys) {
      TickKeepsValid(sys, field, draws, survivors, next);
    }
  }

  /**
   * A body left alone after pruning has no partner: it takes no pull, no push and
   * no draw, so it is simply stepped, and a body on its first step coasts to
   * `q + qp dt`.
   */
  lemma LoneBodyCoasts(s: seq<Body>, keygen: nat, field: Field, draws: (nat, real) -> bool, next: System)
    requires |s| == 1 && s[0].a == Zero
    requires Advanced(s, keygen, field, draws, next)
    ensures next.keygen == keygen && next.bodies == [Step(s[0])]
    ensures s[0].lifetime == 0 ==> next.bodies[0].q == Plus(s[0].q, Scale(Dt, s[0].qp))
  {
    assert NetAccel(s, field, 0) == Zero;
    assert Emitters(s, 1, draws) == [];
    assert s[0].(a := Plus(s[0].a, Zero)) == s[0];
  }

  /** The id and acceleration bookkeeping behind `Valid(sys) ==> Valid(next)` in `Tick`. */
  lemma TickKeepsValid(sys: System, field: Field, draws: (nat, real) -> bool, survivors: seq<Body>, next: System)
    requires Valid(sys)
    requires forall k :: 0 <= k < |survivors| ==> survivors[k] in sys.bodies
    requires IdsDistinct(survivors)
    requires Advanced(survivors, sys.keygen, field, draws, next)
    ensures Valid(next)
  {
    var n := |survivors|;
    var e := Emitters(survivors, n, draws);
    forall k | 0 <= k < |next.bodies|
      ensures next.bodies[k].id == if k < n then survivors[k].id else sys.keygen + (k - n)
      ensures next.bodies[k].id < next.keygen
      ensures next.bodies[k].a == Zero
    {
      if k < n {
        assert survivors[k] in sys.bodies;
      } else {
        var t := k - n;
        assert next.bodies[n + t] == Offspring(survivors, field, e[t]).(id := sys.keygen + t);
      }
    }
  }
}
