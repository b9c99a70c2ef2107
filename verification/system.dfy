/** The body collection and its bookkeeping operations `new`, `add`, `count`, `body` (src/lib.rs:56-60, 149-168). */
module Systems {
  import opened Vectors
  import opened Bodies

  /** `keygen` is the next id to hand out; `bodies` is the unordered `Vec<Body>`. */
  datatype System = System(keygen: nat, bodies: seq<Body>)

  /** Failure value of a positional lookup past the end of the collection. */
  datatype Error = IndexOutOfRange(index: nat, count: nat)

  datatype Result<T> = Ok(value: T) | Err(error: Error)

  /** `count()` returns `len() as u32`, which truncates modulo 2^32. */
  const U32Modulus: nat := 0x1_0000_0000

  /** No two bodies share an id. */
  predicate IdsDistinct(s: seq<Body>) {
    forall p, r :: 0 <= p < r < |s| ==> s[p].id != s[r].id
  }

  /**
   * The state every operation keeps: ids are distinct and all below `keygen`
   * (so `keygen` has never been handed out), and no acceleration survives a step.
   */
  predicate Valid(sys: System) {
    && IdsDistinct(sys.bodies)
    && (forall k :: 0 <= k < |sys.bodies| ==> sys.bodies[k].id < sys.keygen)
    && (forall k :: 0 <= k < |sys.bodies| ==> sys.bodies[k].a == Zero)
  }

  function New(): (sys: System)
    ensures Valid(sys) && |sys.bodies| == 0
    ensures sys.keygen == 0
  {
    System(0, [])
  }

  /**
   * `add`: stamps the body with the current `keygen`, bumps `keygen` by one and
   * appends; whatever id the body carried before is discarded.
   */
  function Add(sys: System, b: Body): (r: System)
    ensures r.keygen == sys.keygen + 1
    ensures |r.bodies| == |sys.bodies| + 1 && r.bodies[..|sys.bodies|] == sys.bodies
    ensures r.bodies[|sys.bodies|].id == sys.keygen
    ensures r.bodies[|sys.bodies|].(id := b.id) == b
    ensures Valid(sys) ==> forall k :: 0 <= k < |sys.bodies| ==> sys.bodies[k].id < r.bodies[|sys.bodies|].id
    ensures Valid(sys) && b.a == Zero ==> Valid(r)
  {
    System(sys.keygen + 1, sys.bodies + [b.(id := sys.keygen)])
  }

  /** `count`: the number of bodies, as a 32-bit value. */
  function Count(sys: System): (r: nat)
    ensures r < U32Modulus
    ensures |sys.bodies| < U32Modulus ==> r == |sys.bodies|
    ensures r % U32Modulus == |sys.bodies| % U32Modulus
  {
    |sys.bodies| % U32Modulus
  }

  /** `body(index)`: a copy of the body at a position, or an error past the end. */
  function BodyAt(sys: System, index: nat): (r: Result<Body>)
    ensures r.Ok? <==> index < |sys.bodies|
    ensures r.Ok? ==> r.value == sys.bodies[index]
    ensures r.Err? ==> r.error == IndexOutOfRange(index, |sys.bodies|)
  {
    if index < |sys.bodies| then Ok(sys.bodies[index]) else Err(IndexOutOfRange(index, |sys.bodies|))
  }

  /** Adds the bodies one after another, as a caller of `add` does. */
  function AddAll(sys: System, bs: seq<Body>): System
    decreases |bs|
  {
    if |bs| == 0 then sys else AddAll(Add(sys, bs[0]), bs[1..])
  }

  /**
   * Successive `add` calls hand out `keygen, keygen + 1, ...` in call order, leave
   * the earlier bodies in place and keep the collection valid; in particular the
   * ids they hand out are strictly increasing and differ from every id already present.
   */
  lemma {:induction false} AddAllStampsConsecutiveIds(sys: System, bs: seq<Body>)
    ensures AddAll(sys, bs).keygen == sys.keygen + |bs|
    ensures |AddAll(sys, bs).bodies| == |sys.bodies| + |bs|
    ensures AddAll(sys, bs).bodies[..|sys.bodies|] == sys.bodies
    ensures forall t :: 0 <= t < |bs| ==> AddAll(sys, bs).bodies[|sys.bodies| + t] == bs[t].(id := sys.keygen + t)
    ensures Valid(sys) && (forall t :: 0 <= t < |bs| ==> bs[t].a == Zero) ==> Valid(AddAll(sys, bs))
    decreases |bs|
  {
    if |bs| > 0 {
      var next := Add(sys, bs[0]);
      AddAllStampsConsecutiveIds(next, bs[1..]);
      var r := AddAll(sys, bs);
      assert r == AddAll(next, bs[1..]);
      assert r.bodies[..|sys.bodies|] == r.bodies[..|next.bodies|][..|sys.bodies|];
      forall t | 0 <= t < |bs|
        ensures r.bodies[|sys.bodies| + t] == bs[t].(id := sys.keygen + t)
      {
        if t > 0 {
          assert bs[t] == bs[1..][t - 1];
          assert r.bodies[|sys.bodies| + t] == r.bodies[|next.bodies| + (t - 1)];
        } else {
          assert r.bodies[|sys.bodies|] == r.bodies[..|next.bodies|][|sys.bodies|];
        }
      }
    }
  }

  /** After `add`, positional lookup finds the new body at the last index and every earlier body unchanged. */
  lemma BodyAtAfterAdd(sys: System, b: Body, index: nat)
    ensures Count(Add(sys, b)) == (Count(sys) + 1) % U32Modulus
    ensures index < |sys.bodies| ==> BodyAt(Add(sys, b), index) == BodyAt(sys, index)
    ensures BodyAt(Add(sys, b), |sys.bodies|) == Ok(b.(id := sys.keygen))
    ensures index > |sys.bodies| ==> BodyAt(Add(sys, b), index).Err?
  {
    if index < |sys.bodies| {
      assert Add(sys, b).bodies[index] == Add(sys, b).bodies[..|sys.bodies|][index];
    }
  }
}
